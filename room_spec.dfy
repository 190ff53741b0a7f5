/** The state of `CobrowsingServer` (backend/server.ts, bundled again in
    dist/server.js) as a value, and one function per handler giving the
    state after it. The class in backend_server.dfy is proved to make
    exactly these changes; room_lemmas.dfy proves what they promise. */
module RoomSpec {
  import opened Collections
  import opened Protocol
  import Uuid

  /** A `Client` record without its socket: `open` stands for
      `ws.readyState === 1`. */
  datatype Client = Client(roomId: Option<RoomId>, isController: bool, open: bool)

  /** A `Room`: `clients` lists the keys of its member Map in insertion
      order, the order `forEach` visits them. */
  datatype Room = Room(id: RoomId, clients: seq<ClientId>, controllerId: Option<ClientId>)

  /** The server. Client records are shared objects in the source, reached
      from the registry and from each room they joined; here each record is
      kept once, under its id, in `connections`, which keeps a record after
      the registry drops it because a room may still hold it. `clients` is
      the key set of the registry Map; `outbox` is every `ws.send` so far. */
  datatype Server = Server(
    connections: map<ClientId, Client>,
    clients: set<ClientId>,
    rooms: map<RoomId, Room>,
    outbox: seq<Send>)

  /** Every reference the server holds leads to a client record. */
  predicate Wf(s: Server) {
    && s.clients <= s.connections.Keys
    && forall r | r in s.rooms :: forall m | m in s.rooms[r].clients :: m in s.connections
  }

  const Initial: Server := Server(map[], {}, map[], [])

  predicate IsOpen(conns: map<ClientId, Client>, m: ClientId) {
    m in conns && conns[m].open
  }

  /** The sends `room.clients.forEach` makes in `broadcastToRoom`: one per
      member whose id is not the excluded one and whose socket is open. */
  function Fanout(members: seq<ClientId>, conns: map<ClientId, Client>, msg: Message,
                  exclude: Option<ClientId>): seq<Send>
  {
    if members == [] then []
    else
      var m := members[|members| - 1];
      Fanout(members[..|members| - 1], conns, msg, exclude)
      + (if Some(m) != exclude && IsOpen(conns, m) then [Send(m, msg)] else [])
  }

  /** One more member extends the fan-out by that member's send, if any. */
  lemma FanoutStep(members: seq<ClientId>, conns: map<ClientId, Client>, msg: Message,
                   exclude: Option<ClientId>, i: nat)
    requires i < |members|
    ensures Fanout(members[..i + 1], conns, msg, exclude)
         == Fanout(members[..i], conns, msg, exclude)
            + (if Some(members[i]) != exclude && IsOpen(conns, members[i]) then [Send(members[i], msg)] else [])
  {
    assert members[..i + 1][..i] == members[..i];
  }

  /** `broadcastToRoom(roomId, message, excludeClientId)`; an unknown room
      sends nothing. */
  function BroadcastToRoom(s: Server, roomId: RoomId, msg: Message, exclude: Option<ClientId>): (t: Server)
    ensures t.connections == s.connections && t.clients == s.clients && t.rooms == s.rooms
    ensures s.outbox <= t.outbox
  {
    if roomId !in s.rooms then s
    else s.(outbox := s.outbox + Fanout(s.rooms[roomId].clients, s.connections, msg, exclude))
  }

  /** The 'connection' handler: a fresh client id from `v4()`, a record
      that is not controller, registration, and the `connected` reply. */
  function OnConnection(s: Server, rnds: seq<Uuid.byte>): (t: Server)
    requires |rnds| >= 16 && Uuid.V4Text(rnds) !in s.connections
    ensures Wf(s) ==> Wf(t)
  {
    var id := Uuid.V4Text(rnds);
    s.(connections := s.connections[id := Client(None, false, true)],
       clients := s.clients + {id},
       outbox := s.outbox + [Send(id, Connected(id))])
  }

  /** The transport moves a socket out of the OPEN state. */
  function SocketClosing(s: Server, c: ClientId): (t: Server)
    requires c in s.connections
    ensures Wf(s) ==> Wf(t)
  {
    s.(connections := s.connections[c := s.connections[c].(open := false)])
  }

  /** `handleJoinRoom`. */
  function HandleJoinRoom(s: Server, c: ClientId, roomId: RoomId): (t: Server)
    requires Wf(s) && c in s.clients
    ensures Wf(t)
  {
    if roomId !in s.rooms then
      s.(outbox := s.outbox + [Send(c, Error(RoomMissing))])
    else
      var room := s.rooms[roomId];
      var joined := room.(clients := InsertKey(room.clients, c));
      var s1 := s.(connections := s.connections[c := s.connections[c].(roomId := Some(roomId))],
                   rooms := s.rooms[roomId := joined]);
      var n := |joined.clients|;
      var s2 := BroadcastToRoom(s1, roomId, UserJoined(c, n), None);
      s2.(outbox := s2.outbox + [Send(c, JoinedRoom(roomId, s.connections[c].isController, n))])
  }

  /** `handleCreateRoom`: the room code is `v4().substring(0, 8)` and is
      stored without looking for a room that already has it. */
  function HandleCreateRoom(s: Server, c: ClientId, rnds: seq<Uuid.byte>): (t: Server)
    requires Wf(s) && c in s.clients && |rnds| >= 16
    ensures Wf(t)
  {
    var id := Uuid.RoomIdOf(rnds);
    s.(connections := s.connections[c := s.connections[c].(roomId := Some(id), isController := true)],
       rooms := s.rooms[id := Room(id, [c], Some(c))],
       outbox := s.outbox + [Send(c, RoomCreated(id, true))])
  }

  /** The first step of `handleRequestControl`: a controller that is still
      a member loses its flag and is told so. */
  function DemoteController(s: Server, room: Room): (t: Server)
    requires Wf(s) && forall m | m in room.clients :: m in s.connections
    ensures Wf(t)
  {
    if Truthy(room.controllerId) && room.controllerId.value in room.clients then
      var x := room.controllerId.value;
      s.(connections := s.connections[x := s.connections[x].(isController := false)],
         outbox := s.outbox + [Send(x, ControlReleased(false))])
    else s
  }

  /** `handleRequestControl`: ignored without a room; otherwise the old
      controller is demoted, the requester takes control, and the room
      hears `controller-changed`. */
  function HandleRequestControl(s: Server, c: ClientId): (t: Server)
    requires Wf(s) && c in s.clients
    ensures Wf(t)
  {
    var cl := s.connections[c];
    if !Truthy(cl.roomId) || cl.roomId.value !in s.rooms then s
    else
      var r := cl.roomId.value;
      var room := s.rooms[r];
      var s1 := DemoteController(s, room);
      var s2 := s1.(rooms := s1.rooms[r := room.(controllerId := Some(c))],
                    connections := s1.connections[c := s1.connections[c].(isController := true)]);
      BroadcastToRoom(s2, r, ControllerChanged(c), None)
  }

  /** `handleReleaseControl`: ignored unless the sender has a room and the
      controller flag. */
  function HandleReleaseControl(s: Server, c: ClientId): (t: Server)
    requires Wf(s) && c in s.clients
    ensures Wf(t)
  {
    var cl := s.connections[c];
    if !Truthy(cl.roomId) || !cl.isController || cl.roomId.value !in s.rooms then s
    else
      var r := cl.roomId.value;
      var s1 := s.(rooms := s.rooms[r := s.rooms[r].(controllerId := None)],
                   connections := s.connections[c := cl.(isController := false)]);
      BroadcastToRoom(s1, r, ControlReleased(true), None)
  }

  /** `handleSyncEvent`: dropped unless the sender has a room and the
      controller flag; otherwise relayed to everyone else in the room. */
  function HandleSyncEvent(s: Server, c: ClientId, eventType: string, data: string): (t: Server)
    requires Wf(s) && c in s.clients
    ensures Wf(t)
  {
    var cl := s.connections[c];
    if !Truthy(cl.roomId) || !cl.isController then s
    else BroadcastToRoom(s, cl.roomId.value, SyncEvent(eventType, data), Some(c))
  }

  /** `handleClientDisconnect`, run on the socket's 'close' event (so the
      socket is no longer open): unregister, leave the room, release
      control if held, tell the rest, and drop the room once empty. */
  function HandleClientDisconnect(s: Server, c: ClientId): (t: Server)
    requires Wf(s) && c in s.clients
    ensures Wf(t)
  {
    var cl := s.connections[c];
    var s0 := s.(clients := s.clients - {c}, connections := s.connections[c := cl.(open := false)]);
    if !Truthy(cl.roomId) || cl.roomId.value !in s.rooms then s0
    else
      var r := cl.roomId.value;
      var room := s.rooms[r].(clients := DeleteKey(s.rooms[r].clients, c));
      var s1 := s0.(rooms := s0.rooms[r := room]);
      var s2 := if room.controllerId == Some(c) then
                  BroadcastToRoom(s1.(rooms := s1.rooms[r := room.(controllerId := None)]),
                                  r, ControlReleased(true), None)
                else s1;
      var s3 := BroadcastToRoom(s2, r, UserLeft(c, |room.clients|), None);
      if |room.clients| == 0 then s3.(rooms := s3.rooms - {r}) else s3
  }

  /** `handleMessage`: dispatch on the message type; unknown types are
      only logged. `rnds` is what `v4()` draws if the message creates a room. */
  function HandleMessage(s: Server, c: ClientId, req: Request, rnds: seq<Uuid.byte>): (t: Server)
    requires Wf(s) && c in s.clients && |rnds| >= 16
    ensures Wf(t)
  {
    match req
    case JoinRoom(roomId) => HandleJoinRoom(s, c, roomId)
    case CreateRoom => HandleCreateRoom(s, c, rnds)
    case RequestControl => HandleRequestControl(s, c)
    case ReleaseControl => HandleReleaseControl(s, c)
    case Sync(eventType, data) => HandleSyncEvent(s, c, eventType, data)
    case Other(_) => s
  }

  /** The room invariants of the design: the room is stored under its id,
      is not empty, lists each member once, its controller is a member, and
      a member holds the controller flag exactly when it is the controller. */
  predicate RoomValid(s: Server, r: RoomId)
    requires r in s.rooms
  {
    var room := s.rooms[r];
    && room.id == r && r != ""
    && NoDup(room.clients) && room.clients != []
    && (room.controllerId.Some? ==> room.controllerId.value in room.clients)
    && forall m | m in room.clients ::
         && m in s.clients && m in s.connections
         && s.connections[m].roomId == Some(r)
         && (s.connections[m].isController <==> room.controllerId == Some(m))
  }

  /** A registered client in a room is one of its members; one in no room
      is not a controller. */
  predicate ClientValid(s: Server, c: ClientId)
    requires c in s.connections
  {
    var cl := s.connections[c];
    match cl.roomId
    case None => !cl.isController
    case Some(r) => r in s.rooms && c in s.rooms[r].clients
  }

  predicate Valid(s: Server) {
    && Wf(s)
    && (forall c | c in s.connections :: c != "")
    && (forall r | r in s.rooms :: RoomValid(s, r))
    && (forall c | c in s.clients :: ClientValid(s, c))
  }
}
