/** The client-side state of `CobrowsingBackground`
    (extension/src/background.js) as a value: the fields the server's
    messages and the popup's commands overwrite, what the extension sends
    to the server, and which sync events it forwards to the active tab. */
module BackgroundSpec {
  import opened Collections
  import opened Protocol

  datatype Background = Background(
    hasSocket: bool,          // this.ws !== null
    clientId: Option<ClientId>,
    roomId: Option<RoomId>,
    isController: bool,
    isConnected: bool,
    sent: seq<Request>,       // every this.ws.send, in order
    forwarded: seq<Message>)  // sync events handed to the active tab

  /** The constructor's state. */
  const Initial: Background := Background(false, None, None, false, false, [], [])

  /** How a pending `joinRoom` promise is settled by a server message. */
  datatype JoinSettlement = Joined | Refused(reason: string) | Waiting

  /** The four fields `disconnect()` and the socket's `onclose` reset. */
  predicate IsReset(b: Background) {
    b.clientId.None? && b.roomId.None? && !b.isController && !b.isConnected
  }

  /** `handleServerMessage`: only `connected`, `controller-changed`,
      `control-released` and `sync-event` change anything. */
  function HandleServerMessage(b: Background, msg: Message): (t: Background)
  {
    match msg
    case Connected(id) => b.(clientId := Some(id))
    case ControllerChanged(cid) => b.(isController := Some(cid) == b.clientId)
    case ControlReleased(_) => b.(isController := false)
    case SyncEvent(_, _) => HandleSyncEvent(b, msg)
    case _ => b
  }

  /** `handleSyncEvent`: a controller ignores the events it would replay. */
  function HandleSyncEvent(b: Background, msg: Message): (t: Background)
  {
    if b.isController then b else b.(forwarded := b.forwarded + [msg])
  }

  /** `connect()`: nothing when already connected; otherwise a new socket,
      which reports `isConnected` only once it opens. */
  function Connect(b: Background): (t: Background)
  {
    if b.isConnected then b else b.(hasSocket := true)
  }

  /** The socket's `onopen`. */
  function OnOpen(b: Background): (t: Background)
  {
    b.(isConnected := true)
  }

  /** The socket's `onclose`: the socket object itself is kept. */
  function OnClose(b: Background): (t: Background)
  {
    b.(isConnected := false, clientId := None, roomId := None, isController := false)
  }

  /** `disconnect()`: drops the socket and resets the fields. */
  function Disconnect(b: Background): (t: Background)
  {
    b.(hasSocket := false, isConnected := false, clientId := None, roomId := None, isController := false)
  }

  /** `leaveRoom()`: purely local. */
  function LeaveRoom(b: Background): (t: Background)
  {
    b.(roomId := None, isController := false)
  }

  function RequestControl(b: Background): (t: Background)
  {
    if b.hasSocket && Truthy(b.roomId) then b.(sent := b.sent + [Request.RequestControl]) else b
  }

  function ReleaseControl(b: Background): (t: Background)
  {
    if b.hasSocket && Truthy(b.roomId) then b.(sent := b.sent + [Request.ReleaseControl]) else b
  }

  function SendSyncEvent(b: Background, eventType: string, data: string): (t: Background)
  {
    if b.hasSocket && Truthy(b.roomId) && b.isController then b.(sent := b.sent + [Sync(eventType, data)]) else b
  }

  /** The tab listener: a finished page load in a controlled room is sent
      as a 'navigation' sync event carrying the tab's URL. */
  function TabLoaded(b: Background, url: string): (t: Background)
  {
    if b.isController && Truthy(b.roomId) then SendSyncEvent(b, "navigation", url) else b
  }

  /** The request `createRoom` sends once connected (a missing socket makes
      the call fail before anything is sent). */
  function SendCreateRoom(b: Background): (t: Background)
  {
    if b.hasSocket then b.(sent := b.sent + [Request.CreateRoom]) else b
  }

  function SendJoinRoom(b: Background, roomId: RoomId): (t: Background)
  {
    if b.hasSocket then b.(sent := b.sent + [Request.JoinRoom(roomId)]) else b
  }

  /** A message seen while `createRoom` waits: `room-created` is adopted,
      anything else goes to the usual handler. */
  function CreateRoomReply(b: Background, msg: Message): (t: Background)
  {
    match msg
    case RoomCreated(id, ic) => b.(roomId := Some(id), isController := ic)
    case _ => HandleServerMessage(b, msg)
  }

  /** A message seen while `joinRoom` waits: `joined-room` is adopted, an
      `error` settles the join without touching the state, anything else
      goes to the usual handler. */
  function JoinRoomReply(b: Background, msg: Message): (t: Background)
  {
    match msg
    case JoinedRoom(id, ic, _) => b.(roomId := Some(id), isController := ic)
    case Error(_) => b
    case _ => HandleServerMessage(b, msg)
  }

  function JoinSettles(msg: Message): (r: JoinSettlement)
  {
    match msg
    case JoinedRoom(_, _, _) => Joined
    case Error(text) => Refused(text)
    case _ => Waiting
  }

  /** Messages handled one after another by `handleServerMessage`. */
  function HandleAll(b: Background, msgs: seq<Message>): (t: Background)
    decreases |msgs|
  {
    if msgs == [] then b
    else HandleAll(HandleServerMessage(b, msgs[0]), msgs[1..])
  }
}
