/** The room coordinator and the extension together: what each client's
    extension state becomes once it has handled the messages a server
    handler sent it. */
module Scenarios {
  import opened Collections
  import opened Protocol
  import opened RoomSpec
  import opened RoomLemmas
  import opened BackgroundSpec
  import opened BackgroundLemmas

  /** After c requests control, every open member of c's room whose
      extension knows its own id ends up with the flag exactly when it is c;
      this includes a requester that already was the controller and is sent
      `control-released` before `controller-changed`. */
  lemma ControlHandOver(s: Server, c: ClientId, y: ClientId, b: Background)
    requires Valid(s) && c in s.clients && s.connections[c].roomId.Some?
    requires y in s.rooms[s.connections[c].roomId.value].clients && IsOpen(s.connections, y)
    requires b.clientId == Some(y)
    ensures var t := HandleRequestControl(s, c);
      s.outbox <= t.outbox && HandleAll(b, Delivered(s.outbox, t.outbox, y)).isController == (y == c)
  {
    assert ClientValid(s, c);
    var t := HandleRequestControl(s, c);
    RequestControlDeliveries(s, c, y);
    var r := s.connections[c].roomId.value;
    var pre := if s.rooms[r].controllerId == Some(y) then [ControlReleased(false)] else [];
    assert Delivered(s.outbox, t.outbox, y) == pre + [ControllerChanged(c)] + [];
    LastControlMessageDecides(b, pre, ControllerChanged(c), []);
    if pre != [] {
      assert HandleAll(b, pre) == HandleAll(HandleServerMessage(b, ControlReleased(false)), []);
    }
  }

  /** When the controller disconnects, every open member left in the room
      ends up without the flag, whatever it believed before. */
  lemma ControllerLeaves(s: Server, c: ClientId, y: ClientId, b: Background)
    requires Valid(s) && c in s.clients && s.connections[c].roomId.Some?
    requires s.rooms[s.connections[c].roomId.value].controllerId == Some(c)
    requires y in s.rooms[s.connections[c].roomId.value].clients && y != c && IsOpen(s.connections, y)
    ensures var t := HandleClientDisconnect(s, c);
      s.outbox <= t.outbox && !HandleAll(b, Delivered(s.outbox, t.outbox, y)).isController
  {
    var t := HandleClientDisconnect(s, c);
    var r := s.connections[c].roomId.value;
    var rest := DeleteKey(s.rooms[r].clients, c);
    DisconnectDeliveries(s, c, y);
    assert y in rest;
    var msgs := [ControlReleased(true)] + [UserLeft(c, |rest|)];
    assert Delivered(s.outbox, t.outbox, y) == msgs;
    QuietMessagesKeepFlag(HandleServerMessage(b, ControlReleased(true)), [UserLeft(c, |rest|)]);
    assert HandleAll(b, msgs) == HandleAll(HandleServerMessage(b, ControlReleased(true)), msgs[1..]);
    assert msgs[1..] == [UserLeft(c, |rest|)];
  }

  /** A client outside any room joins one while its extension waits for
      the reply: it is sent `user-joined` (itself included) and then
      `joined-room`; the waiting handler passes the first on and adopts the
      second, leaving the extension in the room without the controller
      flag and the join settled. */
  lemma JoinFlow(s: Server, c: ClientId, roomId: RoomId, b: Background)
    requires Valid(s) && c in s.clients && s.connections[c].roomId.None? && roomId in s.rooms
    requires IsOpen(s.connections, c)
    ensures var t := HandleJoinRoom(s, c, roomId);
      && s.outbox <= t.outbox
      && var msgs := Delivered(s.outbox, t.outbox, c);
      && |msgs| == 2
      && JoinRoomReply(JoinRoomReply(b, msgs[0]), msgs[1]) == b.(roomId := Some(roomId), isController := false)
      && JoinSettles(msgs[0]) == Waiting && JoinSettles(msgs[1]) == Joined
  {
    assert ClientValid(s, c);
    JoinRoomDeliveries(s, c, roomId, c);
  }

  /** A sync event of the controller reaches the tab of every other open
      member whose extension is not itself the controller. */
  lemma SyncRelayed(s: Server, c: ClientId, y: ClientId, eventType: string, data: string, b: Background)
    requires Valid(s) && c in s.clients && s.connections[c].isController
    requires y in s.rooms[s.connections[c].roomId.value].clients && y != c && IsOpen(s.connections, y)
    requires !b.isController
    ensures var t := RoomSpec.HandleSyncEvent(s, c, eventType, data);
      && s.outbox <= t.outbox
      && HandleAll(b, Delivered(s.outbox, t.outbox, y)).forwarded == b.forwarded + [SyncEvent(eventType, data)]
  {
    assert ClientValid(s, c);
    SyncEventDeliveries(s, c, eventType, data, y);
    assert HandleAll(b, [SyncEvent(eventType, data)])
        == HandleAll(HandleServerMessage(b, SyncEvent(eventType, data)), []);
  }
}
