/** What the handlers of backend/server.ts promise, proved of the value
    model in room_spec.dfy: the room invariants each handler keeps, and
    exactly which messages each client receives, in which order. */
module RoomLemmas {
  import opened Collections
  import opened Protocol
  import opened RoomSpec
  import Uuid

  /** A broadcast reaches each open, non-excluded member exactly once and
      nobody else. */
  lemma {:induction false} FanoutInbox(members: seq<ClientId>, conns: map<ClientId, Client>, msg: Message,
                                       exclude: Option<ClientId>, x: ClientId)
    requires NoDup(members)
    ensures Inbox(Fanout(members, conns, msg, exclude), x)
         == if x in members && Some(x) != exclude && IsOpen(conns, x) then [msg] else []
  {
    if members != [] {
      var init, m := members[..|members| - 1], members[|members| - 1];
      assert members == init + [m];
      FanoutInbox(init, conns, msg, exclude, x);
      InboxAppend(Fanout(init, conns, msg, exclude),
                  if Some(m) != exclude && IsOpen(conns, m) then [Send(m, msg)] else [], x);
      assert x in members <==> x in init || x == m;
      assert m !in init;
      assert Inbox([], x) == [];
      if Some(m) != exclude && IsOpen(conns, m) {
        assert Inbox([Send(m, msg)], x) == Inbox([], x) + (if m == x then [msg] else []);
      }
    }
  }

  /** `broadcastToRoom` sends to exactly the current members whose id is
      not the excluded one and whose socket is open, once each. */
  lemma BroadcastDeliveries(s: Server, roomId: RoomId, msg: Message, exclude: Option<ClientId>, x: ClientId)
    requires roomId in s.rooms ==> NoDup(s.rooms[roomId].clients)
    ensures Delivered(s.outbox, BroadcastToRoom(s, roomId, msg, exclude).outbox, x)
         == if roomId in s.rooms && x in s.rooms[roomId].clients && Some(x) != exclude
               && IsOpen(s.connections, x)
            then [msg] else []
  {
    var t := BroadcastToRoom(s, roomId, msg, exclude);
    if roomId in s.rooms {
      assert t.outbox[|s.outbox|..] == Fanout(s.rooms[roomId].clients, s.connections, msg, exclude);
      FanoutInbox(s.rooms[roomId].clients, s.connections, msg, exclude, x);
    } else {
      assert t.outbox[|s.outbox|..] == [];
    }
  }

  /** Under the invariants, at most one member of a room holds the
      controller flag, and it is the room's controller. */
  lemma SingleController(s: Server, r: RoomId, a: ClientId, b: ClientId)
    requires Valid(s) && r in s.rooms
    requires a in s.rooms[r].clients && s.connections[a].isController
    requires b in s.rooms[r].clients && s.connections[b].isController
    ensures a == b && s.rooms[r].controllerId == Some(a)
  {
    assert RoomValid(s, r);
  }

  lemma ValidIgnoresOutbox(s: Server, o: seq<Send>)
    requires Valid(s)
    ensures Valid(s.(outbox := o))
  {
    var t := s.(outbox := o);
    forall r | r in t.rooms ensures RoomValid(t, r) { assert RoomValid(s, r); }
    forall c | c in t.clients ensures ClientValid(t, c) { assert ClientValid(s, c); }
  }

  /** The server starts with the invariants holding. */
  lemma InitialValid()
    ensures Valid(Initial)
  {
  }

  lemma OnConnectionValid(s: Server, rnds: seq<Uuid.byte>)
    requires Valid(s) && |rnds| >= 16 && Uuid.V4Text(rnds) !in s.connections
    ensures Valid(OnConnection(s, rnds))
  {
    var t := OnConnection(s, rnds);
    var id := Uuid.V4Text(rnds);
    Uuid.StringifyLayout(Uuid.StampVersion(rnds), 0);
    forall r | r in t.rooms ensures RoomValid(t, r) { assert RoomValid(s, r); }
    forall c | c in t.clients ensures ClientValid(t, c) {
      if c != id { assert ClientValid(s, c); }
    }
  }

  lemma SocketClosingValid(s: Server, c: ClientId)
    requires Valid(s) && c in s.connections
    ensures Valid(SocketClosing(s, c))
  {
    var t := SocketClosing(s, c);
    forall r | r in t.rooms ensures RoomValid(t, r) { assert RoomValid(s, r); }
    forall d | d in t.clients ensures ClientValid(t, d) { assert ClientValid(s, d); }
  }

  /** A client in no room is a member of none. */
  lemma RoomlessIsNoMember(s: Server, c: ClientId, r: RoomId)
    requires Valid(s) && c in s.connections && s.connections[c].roomId.None? && r in s.rooms
    ensures c !in s.rooms[r].clients
  {
    assert RoomValid(s, r);
  }

  lemma CreateRoomValid(s: Server, c: ClientId, rnds: seq<Uuid.byte>)
    requires Valid(s) && c in s.clients && |rnds| >= 16
    requires s.connections[c].roomId.None? && Uuid.RoomIdOf(rnds) !in s.rooms
    ensures Valid(HandleCreateRoom(s, c, rnds))
  {
    var t := HandleCreateRoom(s, c, rnds);
    var id := Uuid.RoomIdOf(rnds);
    Uuid.RoomIdSpellsFirstOctets(rnds);
    forall r | r in t.rooms ensures RoomValid(t, r) {
      if r != id {
        assert RoomValid(s, r);
        RoomlessIsNoMember(s, c, r);
      }
    }
    forall d | d in t.clients ensures ClientValid(t, d) {
      if d != c { assert ClientValid(s, d); }
    }
  }

  /** The state `handleJoinRoom` leaves before it sends anything. */
  lemma JoinedStateValid(s: Server, c: ClientId, roomId: RoomId)
    requires Valid(s) && c in s.clients && s.connections[c].roomId.None? && roomId in s.rooms
    ensures Valid(s.(connections := s.connections[c := s.connections[c].(roomId := Some(roomId))],
                     rooms := s.rooms[roomId := s.rooms[roomId].(clients := InsertKey(s.rooms[roomId].clients, c))]))
  {
    var t := s.(connections := s.connections[c := s.connections[c].(roomId := Some(roomId))],
                rooms := s.rooms[roomId := s.rooms[roomId].(clients := InsertKey(s.rooms[roomId].clients, c))]);
    assert ClientValid(s, c);
    forall r | r in t.rooms ensures RoomValid(t, r) {
      assert RoomValid(s, r);
      RoomlessIsNoMember(s, c, r);
    }
    forall d | d in t.clients ensures ClientValid(t, d) {
      if d != c { assert ClientValid(s, d); }
    }
  }

  lemma JoinRoomValid(s: Server, c: ClientId, roomId: RoomId)
    requires Valid(s) && c in s.clients && s.connections[c].roomId.None?
    ensures Valid(HandleJoinRoom(s, c, roomId))
  {
    var t := HandleJoinRoom(s, c, roomId);
    if roomId in s.rooms {
      var s1 := s.(connections := s.connections[c := s.connections[c].(roomId := Some(roomId))],
                   rooms := s.rooms[roomId := s.rooms[roomId].(clients := InsertKey(s.rooms[roomId].clients, c))]);
      JoinedStateValid(s, c, roomId);
      ValidIgnoresOutbox(s1, t.outbox);
      assert t == s1.(outbox := t.outbox);
    } else {
      ValidIgnoresOutbox(s, t.outbox);
    }
  }

  /** The client records after control passes to c: the old controller,
      if any, loses its flag and c gains it. */
  function Granted(conns: map<ClientId, Client>, prev: Option<ClientId>, c: ClientId): (g: map<ClientId, Client>)
    requires c in conns && (prev.Some? ==> prev.value in conns)
    ensures g.Keys == conns.Keys
    ensures forall d | d in conns ::
      g[d] == conns[d].(isController := d == c || (conns[d].isController && prev != Some(d)))
  {
    var demoted := if prev.Some? then conns[prev.value := conns[prev.value].(isController := false)] else conns;
    demoted[c := conns[c].(isController := true)]
  }

  /** What `handleRequestControl` changes, for a client in a room under
      the invariants. */
  lemma RequestControlShape(s: Server, c: ClientId)
    requires Valid(s) && c in s.clients && s.connections[c].roomId.Some?
    ensures var r := s.connections[c].roomId.value;
      && r in s.rooms && c in s.rooms[r].clients
      && var oc := s.rooms[r].controllerId;
      && (oc.Some? ==> oc.value in s.rooms[r].clients && oc.value in s.connections)
      && var t := HandleRequestControl(s, c);
      && t.clients == s.clients
      && t.rooms == s.rooms[r := s.rooms[r].(controllerId := Some(c))]
      && t.connections == Granted(s.connections, oc, c)
  {
    assert ClientValid(s, c);
    assert RoomValid(s, s.connections[c].roomId.value);
  }

  /** Passing control inside room r keeps the invariants. */
  lemma GrantValid(s: Server, t: Server, r: RoomId, c: ClientId)
    requires Valid(s) && r in s.rooms && c in s.rooms[r].clients
    requires var oc := s.rooms[r].controllerId;
      && (oc.Some? ==> oc.value in s.rooms[r].clients && oc.value in s.connections)
      && t.clients == s.clients
      && t.rooms == s.rooms[r := s.rooms[r].(controllerId := Some(c))]
      && t.connections == Granted(s.connections, oc, c)
    ensures Valid(t)
  {
    assert RoomValid(s, r);
    forall q | q in t.rooms ensures RoomValid(t, q) {
      assert RoomValid(s, q);
    }
    forall d | d in t.clients ensures ClientValid(t, d) {
      assert ClientValid(s, d);
    }
  }

  /** After a request from inside a room, the requester is the room's
      controller and the only member holding the flag. */
  lemma RequestControlSingleController(s: Server, c: ClientId)
    requires Valid(s) && c in s.clients && s.connections[c].roomId.Some?
    ensures var t := HandleRequestControl(s, c);
      var r := s.connections[c].roomId.value;
      && r in s.rooms && r in t.rooms
      && t.rooms[r] == s.rooms[r].(controllerId := Some(c))
      && t.clients == s.clients
      && forall m | m in s.rooms[r].clients :: t.connections[m].isController <==> m == c
  {
    var t := HandleRequestControl(s, c);
    var r := s.connections[c].roomId.value;
    RequestControlShape(s, c);
    RequestControlValid(s, c);
    assert RoomValid(t, r);
  }

  lemma RequestControlValid(s: Server, c: ClientId)
    requires Valid(s) && c in s.clients
    ensures Valid(HandleRequestControl(s, c))
  {
    var cl := s.connections[c];
    assert ClientValid(s, c);
    if cl.roomId.Some? {
      RequestControlShape(s, c);
      GrantValid(s, HandleRequestControl(s, c), cl.roomId.value, c);
    }
  }

  lemma ReleaseControlValid(s: Server, c: ClientId)
    requires Valid(s) && c in s.clients
    ensures Valid(HandleReleaseControl(s, c))
  {
    var t := HandleReleaseControl(s, c);
    var cl := s.connections[c];
    if Truthy(cl.roomId) && cl.isController && cl.roomId.value in s.rooms {
      var r := cl.roomId.value;
      assert ClientValid(s, c);
      assert RoomValid(s, r);
      forall q | q in t.rooms ensures RoomValid(t, q) {
        assert RoomValid(s, q);
      }
      forall d | d in t.clients ensures ClientValid(t, d) {
        assert ClientValid(s, d);
      }
    }
  }

  lemma SyncEventValid(s: Server, c: ClientId, eventType: string, data: string)
    requires Valid(s) && c in s.clients
    ensures Valid(HandleSyncEvent(s, c, eventType, data))
  {
    ValidIgnoresOutbox(s, HandleSyncEvent(s, c, eventType, data).outbox);
  }

  /** Removing c from room r (and its controller slot, and the room once
      empty) keeps the invariants. */
  lemma LeaveValid(s: Server, t: Server, r: RoomId, c: ClientId)
    requires Valid(s) && c in s.clients && s.connections[c].roomId == Some(r) && r in s.rooms
    requires t.clients == s.clients - {c}
    requires t.connections == s.connections[c := s.connections[c].(open := false)]
    requires var left := Without(s.rooms[r], c);
      t.rooms == if left.clients == [] then s.rooms - {r} else s.rooms[r := left]
    ensures Valid(t)
  {
    assert RoomValid(s, r);
    var left := Without(s.rooms[r], c);
    forall q | q in t.rooms ensures RoomValid(t, q) {
      if q == r {
        assert t.rooms[r] == left;
      } else {
        assert t.rooms[q] == s.rooms[q] && RoomValid(s, q);
      }
    }
    forall d | d in t.clients ensures ClientValid(t, d) {
      assert ClientValid(s, d);
      if s.connections[d].roomId == Some(r) {
        assert d in left.clients;
      }
    }
  }

  lemma DisconnectValid(s: Server, c: ClientId)
    requires Valid(s) && c in s.clients
    ensures Valid(HandleClientDisconnect(s, c))
  {
    var t := HandleClientDisconnect(s, c);
    DisconnectState(s, c);
    assert ClientValid(s, c);
    if s.connections[c].roomId.Some? {
      LeaveValid(s, t, s.connections[c].roomId.value, c);
    } else {
      forall q | q in t.rooms ensures RoomValid(t, q) {
        assert RoomValid(s, q);
      }
      forall d | d in t.clients ensures ClientValid(t, d) {
        assert ClientValid(s, d);
      }
    }
  }

  lemma {:induction false} InboxOne(a: Send, x: ClientId)
    ensures Inbox([a], x) == if a.to == x then [a.msg] else []
  {
    assert [a][..0] == [];
  }

  /** Joining a code nobody holds only earns the joiner an error. */
  lemma JoinRoomUnknown(s: Server, c: ClientId, roomId: RoomId, x: ClientId)
    requires Wf(s) && c in s.clients && roomId !in s.rooms
    ensures var t := HandleJoinRoom(s, c, roomId);
      && t.connections == s.connections && t.rooms == s.rooms && t.clients == s.clients
      && s.outbox <= t.outbox
      && Delivered(s.outbox, t.outbox, x) == if x == c then [Error(RoomMissing)] else []
  {
    var t := HandleJoinRoom(s, c, roomId);
    assert t.outbox[|s.outbox|..] == [Send(c, Error(RoomMissing))];
    InboxOne(Send(c, Error(RoomMissing)), x);
  }

  /** Joining an existing room: the joiner becomes a member, every open
      member (the joiner included) hears `user-joined` with the new head
      count, and then the joiner alone gets `joined-room` carrying the flag
      its record already had. */
  lemma JoinRoomDeliveries(s: Server, c: ClientId, roomId: RoomId, x: ClientId)
    requires Valid(s) && c in s.clients && roomId in s.rooms
    ensures var t := HandleJoinRoom(s, c, roomId);
      var members := InsertKey(s.rooms[roomId].clients, c);
      var n := |members|;
      && t.rooms == s.rooms[roomId := s.rooms[roomId].(clients := members)]
      && t.clients == s.clients
      && t.connections == s.connections[c := s.connections[c].(roomId := Some(roomId))]
      && s.outbox <= t.outbox
      && Delivered(s.outbox, t.outbox, x)
         == (if x in members && IsOpen(s.connections, x) then [UserJoined(c, n)] else [])
            + (if x == c then [JoinedRoom(roomId, s.connections[c].isController, n)] else [])
  {
    assert RoomValid(s, roomId);
    var room := s.rooms[roomId];
    var joined := room.(clients := InsertKey(room.clients, c));
    var s1 := s.(connections := s.connections[c := s.connections[c].(roomId := Some(roomId))],
                 rooms := s.rooms[roomId := joined]);
    var n := |joined.clients|;
    var s2 := BroadcastToRoom(s1, roomId, UserJoined(c, n), None);
    var t := HandleJoinRoom(s, c, roomId);
    var reply := Send(c, JoinedRoom(roomId, s.connections[c].isController, n));
    assert t.outbox == s2.outbox + [reply];
    BroadcastDeliveries(s1, roomId, UserJoined(c, n), None, x);
    assert IsOpen(s1.connections, x) == IsOpen(s.connections, x);
    DeliveredSplit(s.outbox, s2.outbox, t.outbox, x);
    assert t.outbox[|s2.outbox|..] == [reply];
    InboxOne(reply, x);
  }

  /** A client that is already in one room and joins another is still
      listed by the first, while its record points at the second: the room
      invariants no longer hold, which is why they are kept only for
      clients that join or create from outside any room. */
  lemma SecondJoinBreaksRooms(s: Server, c: ClientId, r0: RoomId, roomId: RoomId)
    requires Valid(s) && c in s.clients && s.connections[c].roomId == Some(r0)
    requires roomId in s.rooms && roomId != r0
    ensures var t := HandleJoinRoom(s, c, roomId);
      && r0 in t.rooms && c in t.rooms[r0].clients
      && t.connections[c].roomId == Some(roomId)
      && !Valid(t)
  {
    var t := HandleJoinRoom(s, c, roomId);
    assert ClientValid(s, c);
    assert r0 in t.rooms && c in t.rooms[r0].clients;
    assert !RoomValid(t, r0);
  }

  /** Creating a room: it is stored under the drawn code with the creator
      as its only member and its controller, and only the creator hears of it. */
  lemma CreateRoomDeliveries(s: Server, c: ClientId, rnds: seq<Uuid.byte>, x: ClientId)
    requires Wf(s) && c in s.clients && |rnds| >= 16
    ensures var t := HandleCreateRoom(s, c, rnds);
      var id := Uuid.RoomIdOf(rnds);
      && |id| == 8
      && t.rooms == s.rooms[id := Room(id, [c], Some(c))]
      && t.clients == s.clients
      && t.connections == s.connections[c := s.connections[c].(roomId := Some(id), isController := true)]
      && s.outbox <= t.outbox
      && Delivered(s.outbox, t.outbox, x) == if x == c then [RoomCreated(id, true)] else []
  {
    var t := HandleCreateRoom(s, c, rnds);
    var id := Uuid.RoomIdOf(rnds);
    Uuid.RoomIdSpellsFirstOctets(rnds);
    assert t.outbox[|s.outbox|..] == [Send(c, RoomCreated(id, true))];
    InboxOne(Send(c, RoomCreated(id, true)), x);
  }

  /** The room code is not checked against the rooms that exist: a drawn
      code that is taken replaces that room, and its other members are left
      pointing at a room that no longer lists them. */
  lemma CreateCollisionReplacesRoom(s: Server, c: ClientId, rnds: seq<Uuid.byte>, m: ClientId)
    requires Valid(s) && c in s.clients && |rnds| >= 16
    requires Uuid.RoomIdOf(rnds) in s.rooms && m in s.rooms[Uuid.RoomIdOf(rnds)].clients && m != c
    ensures var t := HandleCreateRoom(s, c, rnds);
      && t.rooms[Uuid.RoomIdOf(rnds)].clients == [c]
      && t.connections[m].roomId == Some(Uuid.RoomIdOf(rnds))
      && !Valid(t)
  {
    var t := HandleCreateRoom(s, c, rnds);
    var id := Uuid.RoomIdOf(rnds);
    assert RoomValid(s, id);
    assert m in t.clients;
    assert !ClientValid(t, m);
  }

  /** Requesting control from outside any room changes nothing. From inside
      a room, the previous controller alone is told `control-released`
      (without an id) first, even when it is the requester itself; then
      every open member hears `controller-changed`. */
  lemma RequestControlDeliveries(s: Server, c: ClientId, x: ClientId)
    requires Valid(s) && c in s.clients
    ensures s.connections[c].roomId.None? ==> HandleRequestControl(s, c) == s
    ensures s.connections[c].roomId.Some? ==>
      var t := HandleRequestControl(s, c);
      var r := s.connections[c].roomId.value;
      && r in s.rooms
      && s.outbox <= t.outbox
      && Delivered(s.outbox, t.outbox, x)
         == (if s.rooms[r].controllerId == Some(x) then [ControlReleased(false)] else [])
            + (if x in s.rooms[r].clients && IsOpen(s.connections, x) then [ControllerChanged(c)] else [])
  {
    assert ClientValid(s, c);
    var cl := s.connections[c];
    if cl.roomId.Some? {
      var r := cl.roomId.value;
      assert RoomValid(s, r);
      GrantDeliveries(s, r, c, x);
    }
  }

  /** The deliveries of a request from member c of room r, needing only the
      facts about r that the invariants give. */
  lemma GrantDeliveries(s: Server, r: RoomId, c: ClientId, x: ClientId)
    requires Wf(s) && c in s.clients && s.connections[c].roomId == Some(r) && r in s.rooms && r != ""
    requires var room := s.rooms[r];
      && NoDup(room.clients)
      && (room.controllerId.Some? ==> room.controllerId.value in room.clients && room.controllerId.value != "")
    ensures var t := HandleRequestControl(s, c);
      && s.outbox <= t.outbox
      && Delivered(s.outbox, t.outbox, x)
         == (if s.rooms[r].controllerId == Some(x) then [ControlReleased(false)] else [])
            + (if x in s.rooms[r].clients && IsOpen(s.connections, x) then [ControllerChanged(c)] else [])
  {
    var room := s.rooms[r];
    var s1 := DemoteController(s, room);
    var s2 := s1.(rooms := s1.rooms[r := room.(controllerId := Some(c))],
                  connections := s1.connections[c := s1.connections[c].(isController := true)]);
    var t := HandleRequestControl(s, c);
    assert s.outbox <= s1.outbox && s1.rooms == s.rooms
      && Delivered(s.outbox, s1.outbox, x) == (if room.controllerId == Some(x) then [ControlReleased(false)] else [])
      && IsOpen(s2.connections, x) == IsOpen(s.connections, x) by {
      DemoteDeliveries(s, room, x);
    }
    assert t == BroadcastToRoom(s2, r, ControllerChanged(c), None);
    assert s1.outbox <= t.outbox
      && Delivered(s1.outbox, t.outbox, x)
         == (if x in room.clients && IsOpen(s.connections, x) then [ControllerChanged(c)] else []) by {
      BroadcastDeliveries(s2, r, ControllerChanged(c), None, x);
    }
    DeliveredSplit(s.outbox, s1.outbox, t.outbox, x);
  }

  /** Demoting the controller of a room is heard by that controller alone. */
  lemma DemoteDeliveries(s: Server, room: Room, x: ClientId)
    requires Wf(s) && forall m | m in room.clients :: m in s.connections
    requires room.controllerId.Some? ==> room.controllerId.value in room.clients && room.controllerId.value != ""
    ensures var t := DemoteController(s, room);
      && t.rooms == s.rooms && t.clients == s.clients
      && t.connections.Keys == s.connections.Keys
      && (forall m | m in s.connections :: t.connections[m].open == s.connections[m].open)
      && s.outbox <= t.outbox
      && Delivered(s.outbox, t.outbox, x) == if room.controllerId == Some(x) then [ControlReleased(false)] else []
  {
    var t := DemoteController(s, room);
    if room.controllerId.Some? {
      var oc := room.controllerId.value;
      assert t.outbox[|s.outbox|..] == [Send(oc, ControlReleased(false))];
      InboxOne(Send(oc, ControlReleased(false)), x);
    } else {
      assert t.outbox[|s.outbox|..] == [];
    }
  }

  /** Releasing control without holding it changes nothing. The controller
      releasing it leaves the room without a controller and without any
      flagged member, and every open member (itself included) hears
      `control-released` with a null id. */
  lemma ReleaseControlDeliveries(s: Server, c: ClientId, x: ClientId)
    requires Valid(s) && c in s.clients
    ensures !s.connections[c].isController ==> HandleReleaseControl(s, c) == s
    ensures s.connections[c].isController ==>
      var t := HandleReleaseControl(s, c);
      && s.connections[c].roomId.Some?
      && var r := s.connections[c].roomId.value;
      && r in s.rooms && s.rooms[r].controllerId == Some(c)
      && t.rooms == s.rooms[r := s.rooms[r].(controllerId := None)]
      && t.clients == s.clients
      && t.connections == s.connections[c := s.connections[c].(isController := false)]
      && (forall m | m in s.rooms[r].clients :: !t.connections[m].isController)
      && s.outbox <= t.outbox
      && Delivered(s.outbox, t.outbox, x)
         == if x in s.rooms[r].clients && IsOpen(s.connections, x) then [ControlReleased(true)] else []
  {
    assert ClientValid(s, c);
    var cl := s.connections[c];
    if cl.isController {
      var r := cl.roomId.value;
      assert RoomValid(s, r);
      var s1 := s.(rooms := s.rooms[r := s.rooms[r].(controllerId := None)],
                   connections := s.connections[c := cl.(isController := false)]);
      BroadcastDeliveries(s1, r, ControlReleased(true), None, x);
      assert IsOpen(s1.connections, x) == IsOpen(s.connections, x);
    }
  }

  /** A second release by the same client finds its flag cleared and does
      nothing. */
  lemma ReleaseIdempotent(s: Server, c: ClientId)
    requires Wf(s) && c in s.clients
    ensures Wf(HandleReleaseControl(s, c)) && c in HandleReleaseControl(s, c).clients
    ensures HandleReleaseControl(HandleReleaseControl(s, c), c) == HandleReleaseControl(s, c)
  {
    var t := HandleReleaseControl(s, c);
    var cl := s.connections[c];
    assert t.connections.Keys == s.connections.Keys;
    if Truthy(cl.roomId) && cl.isController && cl.roomId.value in s.rooms {
      assert !t.connections[c].isController;
    } else {
      assert t == s;
    }
  }

  /** Only the controller's sync events are relayed, to every other open
      member of its room; anyone else's are dropped. */
  lemma SyncEventDeliveries(s: Server, c: ClientId, eventType: string, data: string, x: ClientId)
    requires Valid(s) && c in s.clients
    ensures !s.connections[c].isController ==> HandleSyncEvent(s, c, eventType, data) == s
    ensures s.connections[c].isController ==>
      var t := HandleSyncEvent(s, c, eventType, data);
      && s.connections[c].roomId.Some?
      && var r := s.connections[c].roomId.value;
      && r in s.rooms
      && t == s.(outbox := t.outbox)
      && s.outbox <= t.outbox
      && Delivered(s.outbox, t.outbox, x)
         == if x in s.rooms[r].clients && x != c && IsOpen(s.connections, x)
            then [SyncEvent(eventType, data)] else []
  {
    assert ClientValid(s, c);
    var cl := s.connections[c];
    if cl.isController {
      var r := cl.roomId.value;
      assert RoomValid(s, r);
      BroadcastDeliveries(s, r, SyncEvent(eventType, data), Some(c), x);
    }
  }

  /** A disconnecting client is unregistered and its socket is closed. If it
      was in a room, the room loses it, has no controller if it held
      control, and is dropped exactly when nobody is left; no other room
      changes. */
  lemma DisconnectState(s: Server, c: ClientId)
    requires Valid(s) && c in s.clients
    ensures var t := HandleClientDisconnect(s, c);
      && t.clients == s.clients - {c}
      && t.connections == s.connections[c := s.connections[c].(open := false)]
      && s.outbox <= t.outbox
    ensures s.connections[c].roomId.None? ==>
      var t := HandleClientDisconnect(s, c);
      t.rooms == s.rooms && t.outbox == s.outbox
    ensures s.connections[c].roomId.Some? ==>
      var t := HandleClientDisconnect(s, c);
      var r := s.connections[c].roomId.value;
      && r in s.rooms
      && var left := Without(s.rooms[r], c);
      && |left.clients| == |s.rooms[r].clients| - 1
      && t.rooms == if left.clients == [] then s.rooms - {r} else s.rooms[r := left]
  {
    assert ClientValid(s, c);
    var cl := s.connections[c];
    if cl.roomId.Some? {
      assert RoomValid(s, cl.roomId.value);
    }
  }

  /** A room without member c, and without a controller if c held control. */
  function Without(room: Room, c: ClientId): (r: Room)
    ensures r.id == room.id && c !in r.clients
    ensures forall m :: m in r.clients <==> m in room.clients && m != c
  {
    room.(clients := DeleteKey(room.clients, c),
          controllerId := if room.controllerId == Some(c) then None else room.controllerId)
  }

  /** What each client hears when c disconnects from room r: if c held
      control, the rest hear `control-released` (null id); then they hear
      `user-left` with the new head count. */
  lemma DisconnectDeliveries(s: Server, c: ClientId, x: ClientId)
    requires Valid(s) && c in s.clients && s.connections[c].roomId.Some?
    ensures var t := HandleClientDisconnect(s, c);
      var r := s.connections[c].roomId.value;
      && r in s.rooms && s.outbox <= t.outbox
      && var rest := DeleteKey(s.rooms[r].clients, c);
      && var wasController := s.rooms[r].controllerId == Some(c);
      && Delivered(s.outbox, t.outbox, x)
         == (if wasController && x in rest && IsOpen(s.connections, x) then [ControlReleased(true)] else [])
            + (if x in rest && IsOpen(s.connections, x) then [UserLeft(c, |rest|)] else [])
  {
    assert ClientValid(s, c);
    var cl := s.connections[c];
    var s0 := s.(clients := s.clients - {c}, connections := s.connections[c := cl.(open := false)]);
    var r := cl.roomId.value;
    assert RoomValid(s, r);
    var room := s.rooms[r].(clients := DeleteKey(s.rooms[r].clients, c));
    var s1 := s0.(rooms := s0.rooms[r := room]);
    var s2 := if room.controllerId == Some(c) then
                BroadcastToRoom(s1.(rooms := s1.rooms[r := room.(controllerId := None)]),
                                r, ControlReleased(true), None)
              else s1;
    var s3 := BroadcastToRoom(s2, r, UserLeft(c, |room.clients|), None);
    var t := HandleClientDisconnect(s, c);
    assert t.outbox == s3.outbox;
    assert IsOpen(s0.connections, x) == (x != c && IsOpen(s.connections, x));
    if room.controllerId == Some(c) {
      BroadcastDeliveries(s1.(rooms := s1.rooms[r := room.(controllerId := None)]),
                          r, ControlReleased(true), None, x);
    } else {
      assert s2.outbox[|s.outbox|..] == [];
    }
    BroadcastDeliveries(s2, r, UserLeft(c, |room.clients|), None, x);
    DeliveredSplit(s.outbox, s2.outbox, t.outbox, x);
  }

  /** Once the last member has left, the room code is gone: joining it
      earns only the error. */
  lemma LastLeaveThenJoinFails(s: Server, c: ClientId, d: ClientId)
    requires Valid(s) && c in s.clients && d in s.clients && d != c
    requires s.connections[c].roomId.Some? && s.rooms[s.connections[c].roomId.value].clients == [c]
    ensures var t := HandleClientDisconnect(s, c);
      var r := s.connections[c].roomId.value;
      && Valid(t) && d in t.clients && r !in t.rooms
      && Delivered(t.outbox, HandleJoinRoom(t, d, r).outbox, d) == [Error(RoomMissing)]
  {
    var t := HandleClientDisconnect(s, c);
    var r := s.connections[c].roomId.value;
    DisconnectValid(s, c);
    DisconnectState(s, c);
    assert DeleteKey([c], c) == [];
    JoinRoomUnknown(t, d, r, d);
  }

  /** Every dispatched message keeps the room invariants, provided a client
      only creates or joins a room while it is in none, and a created room's
      code is not already taken. */
  lemma HandleMessageValid(s: Server, c: ClientId, req: Request, rnds: seq<Uuid.byte>)
    requires Valid(s) && c in s.clients && |rnds| >= 16
    requires (req.JoinRoom? || req.CreateRoom?) ==> s.connections[c].roomId.None?
    requires req.CreateRoom? ==> Uuid.RoomIdOf(rnds) !in s.rooms
    ensures Valid(HandleMessage(s, c, req, rnds))
  {
    match req
    case JoinRoom(roomId) => JoinRoomValid(s, c, roomId);
    case CreateRoom => CreateRoomValid(s, c, rnds);
    case RequestControl => RequestControlValid(s, c);
    case ReleaseControl => ReleaseControlValid(s, c);
    case Sync(eventType, data) => SyncEventValid(s, c, eventType, data);
    case Other(_) =>
  }
}
