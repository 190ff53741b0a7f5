/** The `CobrowsingServer` class of backend/server.ts (bundled again in
    dist/server.js): its Maps become fields the methods reassign, and each
    handler is proved to leave exactly the state the matching function of
    room_spec.dfy describes. */
module Backend {
  import opened Collections
  import opened Protocol
  import opened RoomSpec
  import Uuid

  class CobrowsingServer {
    var connections: map<ClientId, Client>
    var clients: set<ClientId>
    var rooms: map<RoomId, Room>
    var outbox: seq<Send>

    function State(): Server
      reads this
    {
      Server(connections, clients, rooms, outbox)
    }

    constructor ()
      ensures State() == Initial && Valid(State())
    {
      connections := map[];
      clients := {};
      rooms := map[];
      outbox := [];
    }

    /** `broadcastToRoom`: visits the members in insertion order. */
    method BroadcastToRoom(roomId: RoomId, msg: Message, exclude: Option<ClientId>)
      modifies this
      ensures State() == RoomSpec.BroadcastToRoom(old(State()), roomId, msg, exclude)
    {
      if roomId !in rooms {
        return;
      }
      var members := rooms[roomId].clients;
      var i := 0;
      while i < |members|
        invariant 0 <= i <= |members|
        invariant connections == old(connections)
        invariant clients == old(clients)
        invariant rooms == old(rooms)
        invariant outbox == old(outbox) + Fanout(members[..i], connections, msg, exclude)
      {
        var m := members[i];
        RoomSpec.FanoutStep(members, connections, msg, exclude, i);
        if Some(m) != exclude && IsOpen(connections, m) {
          outbox := outbox + [Send(m, msg)];
        }
        i := i + 1;
      }
      assert members[..|members|] == members;
    }

    /** The 'connection' handler; `rnds` are the random bytes `v4()` draws. */
    method OnConnection(rnds: seq<Uuid.byte>) returns (clientId: ClientId)
      requires |rnds| >= 16 && Uuid.V4Text(rnds) !in connections
      modifies this
      ensures clientId == Uuid.V4Text(rnds)
      ensures State() == RoomSpec.OnConnection(old(State()), rnds)
      ensures old(Wf(State())) ==> Wf(State())
    {
      clientId := Uuid.V4Text(rnds);
      connections := connections[clientId := Client(None, false, true)];
      clients := clients + {clientId};
      outbox := outbox + [Send(clientId, Connected(clientId))];
    }

    /** The transport closes a client's socket. */
    method SocketClosing(c: ClientId)
      requires c in connections
      modifies this
      ensures State() == RoomSpec.SocketClosing(old(State()), c)
      ensures old(Wf(State())) ==> Wf(State())
    {
      connections := connections[c := connections[c].(open := false)];
    }

    method HandleJoinRoom(c: ClientId, roomId: RoomId)
      requires Wf(State()) && c in clients
      modifies this
      ensures State() == RoomSpec.HandleJoinRoom(old(State()), c, roomId)
      ensures Wf(State())
    {
      if roomId !in rooms {
        outbox := outbox + [Send(c, Error(RoomMissing))];
        return;
      }
      var room := rooms[roomId];
      var wasController := connections[c].isController;
      connections := connections[c := connections[c].(roomId := Some(roomId))];
      room := room.(clients := InsertKey(room.clients, c));
      rooms := rooms[roomId := room];
      var n := |room.clients|;
      BroadcastToRoom(roomId, UserJoined(c, n), None);
      outbox := outbox + [Send(c, JoinedRoom(roomId, wasController, n))];
    }

    /** `handleCreateRoom`; `rnds` are the random bytes of the room code. */
    method HandleCreateRoom(c: ClientId, rnds: seq<Uuid.byte>)
      requires Wf(State()) && c in clients && |rnds| >= 16
      modifies this
      ensures State() == RoomSpec.HandleCreateRoom(old(State()), c, rnds)
      ensures Wf(State())
    {
      var roomId := Uuid.RoomIdOf(rnds);
      rooms := rooms[roomId := Room(roomId, [c], Some(c))];
      connections := connections[c := connections[c].(roomId := Some(roomId), isController := true)];
      outbox := outbox + [Send(c, RoomCreated(roomId, true))];
    }

    method HandleRequestControl(c: ClientId)
      requires Wf(State()) && c in clients
      modifies this
      ensures State() == RoomSpec.HandleRequestControl(old(State()), c)
      ensures Wf(State())
    {
      var cl := connections[c];
      if !Truthy(cl.roomId) || cl.roomId.value !in rooms {
        return;
      }
      var r := cl.roomId.value;
      var room := rooms[r];
      if Truthy(room.controllerId) && room.controllerId.value in room.clients {
        var x := room.controllerId.value;
        connections := connections[x := connections[x].(isController := false)];
        outbox := outbox + [Send(x, ControlReleased(false))];
      }
      rooms := rooms[r := room.(controllerId := Some(c))];
      connections := connections[c := connections[c].(isController := true)];
      BroadcastToRoom(r, ControllerChanged(c), None);
    }

    method HandleReleaseControl(c: ClientId)
      requires Wf(State()) && c in clients
      modifies this
      ensures State() == RoomSpec.HandleReleaseControl(old(State()), c)
      ensures Wf(State())
    {
      var cl := connections[c];
      if !Truthy(cl.roomId) || !cl.isController || cl.roomId.value !in rooms {
        return;
      }
      var r := cl.roomId.value;
      rooms := rooms[r := rooms[r].(controllerId := None)];
      connections := connections[c := cl.(isController := false)];
      BroadcastToRoom(r, ControlReleased(true), None);
    }

    method HandleSyncEvent(c: ClientId, eventType: string, data: string)
      requires Wf(State()) && c in clients
      modifies this
      ensures State() == RoomSpec.HandleSyncEvent(old(State()), c, eventType, data)
      ensures Wf(State())
    {
      var cl := connections[c];
      if !Truthy(cl.roomId) || !cl.isController {
        return;
      }
      BroadcastToRoom(cl.roomId.value, SyncEvent(eventType, data), Some(c));
    }

    /** `handleClientDisconnect`, on the socket's 'close' event. */
    method HandleClientDisconnect(c: ClientId)
      requires Wf(State()) && c in clients
      modifies this
      ensures State() == RoomSpec.HandleClientDisconnect(old(State()), c)
      ensures Wf(State())
    {
      var cl := connections[c];
      clients := clients - {c};
      connections := connections[c := cl.(open := false)];
      if !Truthy(cl.roomId) || cl.roomId.value !in rooms {
        return;
      }
      var r := cl.roomId.value;
      var room := rooms[r].(clients := DeleteKey(rooms[r].clients, c));
      rooms := rooms[r := room];
      if room.controllerId == Some(c) {
        rooms := rooms[r := room.(controllerId := None)];
        BroadcastToRoom(r, ControlReleased(true), None);
      }
      BroadcastToRoom(r, UserLeft(c, |room.clients|), None);
      if |room.clients| == 0 {
        rooms := rooms - {r};
      }
    }

    /** `handleMessage`: dispatch on the request's type. */
    method HandleMessage(c: ClientId, req: Request, rnds: seq<Uuid.byte>)
      requires Wf(State()) && c in clients && |rnds| >= 16
      modifies this
      ensures State() == RoomSpec.HandleMessage(old(State()), c, req, rnds)
      ensures Wf(State())
    {
      match req
      case JoinRoom(roomId) => HandleJoinRoom(c, roomId);
      case CreateRoom => HandleCreateRoom(c, rnds);
      case RequestControl => HandleRequestControl(c);
      case ReleaseControl => HandleReleaseControl(c);
      case Sync(eventType, data) => HandleSyncEvent(c, eventType, data);
      case Other(_) =>
    }
  }
}
