/** The `CobrowsingBackground` class of extension/src/background.js: its
    fields are overwritten step by step, and each method is proved to leave
    exactly the state background_spec.dfy describes. */
module Extension {
  import opened Collections
  import opened Protocol
  import BackgroundSpec

  class CobrowsingBackground {
    var hasSocket: bool
    var clientId: Option<ClientId>
    var roomId: Option<RoomId>
    var isController: bool
    var isConnected: bool
    var sent: seq<Request>
    var forwarded: seq<Message>

    function State(): BackgroundSpec.Background
      reads this
    {
      BackgroundSpec.Background(hasSocket, clientId, roomId, isController, isConnected, sent, forwarded)
    }

    constructor ()
      ensures State() == BackgroundSpec.Initial
    {
      hasSocket := false;
      clientId := None;
      roomId := None;
      isController := false;
      isConnected := false;
      sent := [];
      forwarded := [];
    }

    method HandleServerMessage(msg: Message)
      modifies this
      ensures State() == BackgroundSpec.HandleServerMessage(old(State()), msg)
    {
      match msg
      case Connected(id) =>
        clientId := Some(id);
      case ControllerChanged(cid) =>
        isController := Some(cid) == clientId;
      case ControlReleased(_) =>
        isController := false;
      case SyncEvent(_, _) =>
        HandleSyncEvent(msg);
      case _ =>
    }

    method HandleSyncEvent(msg: Message)
      modifies this
      ensures State() == BackgroundSpec.HandleSyncEvent(old(State()), msg)
    {
      if isController {
        return;
      }
      forwarded := forwarded + [msg];
    }

    method Connect()
      modifies this
      ensures State() == BackgroundSpec.Connect(old(State()))
    {
      if isConnected {
        return;
      }
      hasSocket := true;
    }

    method OnOpen()
      modifies this
      ensures State() == BackgroundSpec.OnOpen(old(State()))
    {
      isConnected := true;
    }

    method OnClose()
      modifies this
      ensures State() == BackgroundSpec.OnClose(old(State()))
    {
      isConnected := false;
      clientId := None;
      roomId := None;
      isController := false;
    }

    method Disconnect()
      modifies this
      ensures State() == BackgroundSpec.Disconnect(old(State()))
    {
      if hasSocket {
        hasSocket := false;
      }
      isConnected := false;
      clientId := None;
      roomId := None;
      isController := false;
    }

    method LeaveRoom()
      modifies this
      ensures State() == BackgroundSpec.LeaveRoom(old(State()))
    {
      roomId := None;
      isController := false;
    }

    method RequestControl()
      modifies this
      ensures State() == BackgroundSpec.RequestControl(old(State()))
    {
      if hasSocket && Truthy(roomId) {
        sent := sent + [Request.RequestControl];
      }
    }

    method ReleaseControl()
      modifies this
      ensures State() == BackgroundSpec.ReleaseControl(old(State()))
    {
      if hasSocket && Truthy(roomId) {
        sent := sent + [Request.ReleaseControl];
      }
    }

    method SendSyncEvent(eventType: string, data: string)
      modifies this
      ensures State() == BackgroundSpec.SendSyncEvent(old(State()), eventType, data)
    {
      if hasSocket && Truthy(roomId) && isController {
        sent := sent + [Sync(eventType, data)];
      }
    }

    /** The `chrome.tabs.onUpdated` listener on a finished load of `url`. */
    method TabLoaded(url: string)
      modifies this
      ensures State() == BackgroundSpec.TabLoaded(old(State()), url)
    {
      if isController && Truthy(roomId) {
        SendSyncEvent("navigation", url);
      }
    }

    method SendCreateRoom()
      modifies this
      ensures State() == BackgroundSpec.SendCreateRoom(old(State()))
    {
      if hasSocket {
        sent := sent + [Request.CreateRoom];
      }
    }

    method SendJoinRoom(room: RoomId)
      modifies this
      ensures State() == BackgroundSpec.SendJoinRoom(old(State()), room)
    {
      if hasSocket {
        sent := sent + [Request.JoinRoom(room)];
      }
    }

    /** The handler `createRoom` installs; resolves with the new room's id. */
    method OnCreateRoomReply(msg: Message) returns (created: Option<RoomId>)
      modifies this
      ensures created == if msg.RoomCreated? then Some(msg.roomId) else None
      ensures State() == BackgroundSpec.CreateRoomReply(old(State()), msg)
    {
      if msg.RoomCreated? {
        roomId := Some(msg.roomId);
        isController := msg.isController;
        created := Some(msg.roomId);
      } else {
        HandleServerMessage(msg);
        created := None;
      }
    }

    /** The handler `joinRoom` installs; says how the join promise settles. */
    method OnJoinRoomReply(msg: Message) returns (settled: BackgroundSpec.JoinSettlement)
      modifies this
      ensures settled == BackgroundSpec.JoinSettles(msg)
      ensures State() == BackgroundSpec.JoinRoomReply(old(State()), msg)
    {
      if msg.JoinedRoom? {
        roomId := Some(msg.roomId);
        isController := msg.isController;
        settled := BackgroundSpec.Joined;
      } else if msg.Error? {
        settled := BackgroundSpec.Refused(msg.text);
      } else {
        HandleServerMessage(msg);
        settled := BackgroundSpec.Waiting;
      }
    }
  }
}
