/** The messages exchanged between the extension and the room coordinator
    (the `type`-tagged JSON objects of backend/server.ts), and the outbox
    that stands in for the WebSocket transport: every `ws.send` appends one
    record addressed to one client. */
module Protocol {

  type ClientId = string
  type RoomId = string

  /** What the coordinator sends to a client. */
  datatype Message =
    | Connected(clientId: ClientId)
    | Error(text: string)
    | RoomCreated(roomId: RoomId, isController: bool)
    | JoinedRoom(roomId: RoomId, isController: bool, userCount: nat)
    | UserJoined(clientId: ClientId, userCount: nat)
    | UserLeft(clientId: ClientId, userCount: nat)
    | ControllerChanged(controllerId: ClientId)
      /** `withNullId` tells the room-wide form `{controllerId: null}` from
          the bare form sent to a controller that is being replaced. */
    | ControlReleased(withNullId: bool)
    | SyncEvent(eventType: string, data: string)

  /** What a client sends to the coordinator; `Other` is any other `type`. */
  datatype Request =
    | JoinRoom(roomId: RoomId)
    | CreateRoom
    | RequestControl
    | ReleaseControl
    | Sync(eventType: string, data: string)
    | Other(kind: string)

  const RoomMissing: string := "Room does not exist"

  /** One call of `ws.send` on the socket of client `to`. */
  datatype Send = Send(to: ClientId, msg: Message)

  /** The messages addressed to x, in the order they were sent. */
  function Inbox(sends: seq<Send>, x: ClientId): seq<Message>
  {
    if sends == [] then []
    else
      var last := sends[|sends| - 1];
      Inbox(sends[..|sends| - 1], x) + (if last.to == x then [last.msg] else [])
  }

  lemma {:induction false} InboxAppend(a: seq<Send>, b: seq<Send>, x: ClientId)
    ensures Inbox(a + b, x) == Inbox(a, x) + Inbox(b, x)
    decreases |b|
  {
    if b != [] {
      var last := b[|b| - 1];
      assert (a + b)[..|a + b| - 1] == a + b[..|b| - 1];
      InboxAppend(a, b[..|b| - 1], x);
    } else {
      assert a + b == a;
    }
  }

  /** What x receives from the sends made after `before`. */
  function Delivered(before: seq<Send>, after: seq<Send>, x: ClientId): seq<Message>
    requires before <= after
  {
    Inbox(after[|before|..], x)
  }

  lemma DeliveredSplit(a: seq<Send>, b: seq<Send>, c: seq<Send>, x: ClientId)
    requires a <= b <= c
    ensures Delivered(a, c, x) == Delivered(a, b, x) + Delivered(b, c, x)
  {
    assert c[|a|..] == b[|a|..] + c[|b|..];
    InboxAppend(b[|a|..], c[|b|..], x);
  }
}
