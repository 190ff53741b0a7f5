/** What the state transitions of extension/src/background.js promise,
    proved of the value model in background_spec.dfy. */
module BackgroundLemmas {
  import opened Collections
  import opened Protocol
  import opened BackgroundSpec

  /** `controller-changed` sets the flag exactly when the new controller's
      id is this client's id; `control-released` clears it; neither touches
      anything else. */
  lemma ControlMessages(b: Background, cid: ClientId, withNullId: bool)
    ensures var t := HandleServerMessage(b, ControllerChanged(cid));
      (t.isController <==> b.clientId == Some(cid)) && t == b.(isController := t.isController)
    ensures HandleServerMessage(b, ControlReleased(withNullId)) == b.(isController := false)
  {
  }

  /** `connected` stores the id the server assigned. */
  lemma ConnectedStoresId(b: Background, id: ClientId)
    ensures HandleServerMessage(b, Connected(id)) == b.(clientId := Some(id))
  {
  }

  /** `disconnect()` and the socket closing reset the same four fields;
      only `disconnect()` drops the socket; neither sends anything. */
  lemma ResetsAgree(b: Background)
    ensures IsReset(Disconnect(b)) && IsReset(OnClose(b))
    ensures Disconnect(b) == OnClose(b).(hasSocket := false)
    ensures OnClose(b).hasSocket == b.hasSocket && OnClose(b).sent == b.sent
  {
  }

  /** `leaveRoom` only clears the room and the flag, and tells the server
      nothing. */
  lemma LeaveRoomIsLocal(b: Background)
    ensures var t := LeaveRoom(b);
      t.roomId.None? && !t.isController && t.sent == b.sent && t == b.(roomId := None, isController := false)
  {
  }

  /** A sync event is sent exactly when there is a socket, a room and the
      controller flag, and then as the one `sync-event` request. */
  lemma SyncEventGate(b: Background, eventType: string, data: string)
    ensures var t := SendSyncEvent(b, eventType, data);
      && (b.hasSocket && Truthy(b.roomId) && b.isController <==> t.sent != b.sent)
      && (t.sent != b.sent ==> t == b.(sent := b.sent + [Sync(eventType, data)]))
      && (t.sent == b.sent ==> t == b)
  {
  }

  /** Control is requested or released exactly when there is a socket and
      a room; the flag itself is left for the server's answer. */
  lemma ControlRequestGates(b: Background)
    ensures var t := BackgroundSpec.RequestControl(b);
      (b.hasSocket && Truthy(b.roomId) <==> t.sent == b.sent + [Request.RequestControl])
      && t.isController == b.isController && t == b.(sent := t.sent)
    ensures var t := BackgroundSpec.ReleaseControl(b);
      (b.hasSocket && Truthy(b.roomId) <==> t.sent == b.sent + [Request.ReleaseControl])
      && t.isController == b.isController && t == b.(sent := t.sent)
  {
  }

  /** An incoming sync event reaches the tab exactly when this client is
      not the controller. */
  lemma SyncEventGuard(b: Background, eventType: string, data: string)
    ensures var t := HandleServerMessage(b, SyncEvent(eventType, data));
      && (!b.isController <==> t.forwarded == b.forwarded + [SyncEvent(eventType, data)])
      && (b.isController ==> t == b)
      && t == b.(forwarded := t.forwarded)
  {
  }

  /** A finished page load is relayed as a navigation event only by the
      controller of a room with a socket. */
  lemma TabLoadedGate(b: Background, url: string)
    ensures var t := TabLoaded(b, url);
      (b.hasSocket && Truthy(b.roomId) && b.isController <==> t.sent == b.sent + [Sync("navigation", url)])
      && t == b.(sent := t.sent)
  {
  }

  /** The replies to `createRoom` and `joinRoom` set the room and the flag
      from the message; an error settles a join as refused with the
      server's text and leaves the room as it was. */
  lemma RepliesAdopted(b: Background, id: RoomId, ic: bool, n: nat, text: string)
    ensures CreateRoomReply(b, RoomCreated(id, ic)) == b.(roomId := Some(id), isController := ic)
    ensures JoinRoomReply(b, JoinedRoom(id, ic, n)) == b.(roomId := Some(id), isController := ic)
    ensures JoinSettles(JoinedRoom(id, ic, n)) == Joined
    ensures JoinRoomReply(b, Error(text)) == b && JoinSettles(Error(text)) == Refused(text)
  {
  }

  /** `connect()` on a connected extension returns at once. */
  lemma ConnectWhenConnected(b: Background)
    ensures b.isConnected ==> Connect(b) == b
    ensures !b.isConnected ==> Connect(b) == b.(hasSocket := true) && !Connect(b).isConnected
  {
  }

  predicate IsControlMessage(m: Message) {
    m.ControllerChanged? || m.ControlReleased?
  }

  lemma {:induction false} HandleAllAppend(b: Background, m1: seq<Message>, m2: seq<Message>)
    ensures HandleAll(b, m1 + m2) == HandleAll(HandleAll(b, m1), m2)
    decreases |m1|
  {
    if m1 != [] {
      assert (m1 + m2)[1..] == m1[1..] + m2;
      HandleAllAppend(HandleServerMessage(b, m1[0]), m1[1..], m2);
    } else {
      assert m1 + m2 == m2;
    }
  }

  /** Server messages never move the extension in or out of a room, never
      make it send, and never drop its socket. */
  lemma {:induction false} HandleAllKeepsRoom(b: Background, msgs: seq<Message>)
    ensures var t := HandleAll(b, msgs);
      t.roomId == b.roomId && t.sent == b.sent && t.hasSocket == b.hasSocket && t.isConnected == b.isConnected
    decreases |msgs|
  {
    if msgs != [] {
      HandleAllKeepsRoom(HandleServerMessage(b, msgs[0]), msgs[1..]);
    }
  }

  /** Messages other than `controller-changed` and `control-released`
      leave the flag alone, and without `connected` the id stays too. */
  lemma {:induction false} QuietMessagesKeepFlag(b: Background, msgs: seq<Message>)
    requires forall i | 0 <= i < |msgs| :: !IsControlMessage(msgs[i]) && !msgs[i].Connected?
    ensures HandleAll(b, msgs).isController == b.isController
    ensures HandleAll(b, msgs).clientId == b.clientId
    decreases |msgs|
  {
    if msgs != [] {
      QuietMessagesKeepFlag(HandleServerMessage(b, msgs[0]), msgs[1..]);
    }
  }

  /** The last control message decides the flag: after it, a
      `controller-changed` naming this client or a `control-released`
      followed only by other messages (and no new id) leaves the flag it set. */
  lemma LastControlMessageDecides(b: Background, pre: seq<Message>, m: Message, post: seq<Message>)
    requires IsControlMessage(m)
    requires forall i | 0 <= i < |post| :: !IsControlMessage(post[i]) && !post[i].Connected?
    ensures HandleAll(b, pre + [m] + post).isController
            == (m.ControllerChanged? && HandleAll(b, pre).clientId == Some(m.controllerId))
  {
    HandleAllAppend(b, pre + [m], post);
    HandleAllAppend(b, pre, [m]);
    var mid := HandleAll(b, pre);
    assert HandleAll(mid, [m]) == HandleAll(HandleServerMessage(mid, m), []);
    QuietMessagesKeepFlag(HandleAll(b, pre + [m]), post);
  }
}
