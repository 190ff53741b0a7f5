# cobrowsing-ws in Dafny

A model of the co-browsing coordinator in cobrowsing-ws, with proofs. It covers four parts.

- **The room server `CobrowsingServer`** of backend/server.ts, bundled again in dist/server.js.
  - Clients connect over a WebSocket and get an id from `uuid.v4()`.
  - A client creates a room, whose code is the first eight characters of a fresh v4 id, or joins one.
  - At most one member of a room holds the control token. A room has no holder after a release or after its controller disconnects. Members request and release the token.
  - Only the holder's `sync-event`s are relayed to the rest of the room.
  - On disconnect a client leaves its room. Control is released if it held it, and the room is dropped once empty.
  - Every `ws.send` is an entry `(recipient, message)` appended to an outbox. `ws.readyState === 1` is an `open` flag on each client record. This lets the model state who receives what, and in which order.
- **The version-4 UUID generator** bundled in dist/server.js (RFC 4122).
  - The `byteToHex` table.
  - `unsafeStringify`, which writes the 36-character form of section 3.
  - `v4`, which stamps the version bits (section 4.1.3) and variant bits (section 4.1.1) into 16 random octets, then either formats them or copies them into a caller's buffer.
- **The socket.io session store** of server.js.
  - A session has one teacher slot, a list of students, the current URL and an interaction log.
  - Only a socket whose recorded role is 'teacher' navigates, and only its interactions are logged and relayed. A second teacher refused by an occupied slot keeps that role.
  - A disconnect that leaves a session with no teacher and no students deletes it, so every stored session lists at least one participant. A listed participant need not still be connected (see "## Left out").
- **The extension's background state machine** `CobrowsingBackground` of extension/src/background.js.
  - Fields: the client id, the room, the controller flag and the connection flag, which the server's messages and the popup's commands overwrite.
  - Gates decide when the extension sends requests and sync events.

Each stateful component has two parts.

- **A specification module.** It is a value datatype of the whole state plus one function per handler (room_spec.dfy, session_spec.dfy, background_spec.dfy).
- **A class.** Its fields are the ones the source mutates in place. Each method is proved to leave exactly the state the matching function describes (backend_server.dfy, session_server.dfy, background.dfy).

The properties are proved as lemmas about the specification functions.

- room_lemmas.dfy:
  - the room invariants each handler keeps;
  - the exact messages each client receives;
  - the source's quirks.
- session_lemmas.dfy and background_lemmas.dfy: the session store and the extension.
- scenarios.dfy: server and extension together.

Source modules:

| module | file | models |
|---|---|---|
| `Collections` | collections.dfy | JavaScript truthiness of optional values; Map keys in insertion order |
| `Protocol` | protocol.dfy | the messages and the outbox |
| `Uuid` | uuid.dfy | the UUID code |

Where the code and the design's intent disagree, the model follows the code. The lemmas that state the disagreement:

- `RoomLemmas.JoinRoomDeliveries`: a join broadcasts `user-joined` to the joiner too.
- `RoomLemmas.RequestControlDeliveries`: a request from the current controller first sends it `control-released`, then grants control again.
- `RoomLemmas.CreateCollisionReplacesRoom`: a room code is never checked for collisions.
- `RoomLemmas.SecondJoinBreaksRooms`: a second join leaves the client listed in its first room.

Because of the last two, the room invariants are proved for handlers called as the design intends: create and join only by a client in no room, and a fresh code on create.

## Model

| member | source | states |
|---|---|---|
| `Collections.InsertKey` | backend/server.ts:94 | `Map.set` of a new key appends it to the key order and keeps an existing key in place; the key set grows by exactly that key; no duplicates appear |
| `Collections.DeleteKey` | backend/server.ts:190 | `delete` removes exactly that key, and shortens a duplicate-free key list by one when the key was present |
| `Collections.DeleteKeyKeepsOrder` | backend/server.ts:190 | deleting the key at position i of a duplicate-free key list leaves the keys before i and the keys after i, each in their order |
| `Protocol.InboxAppend` | backend/server.ts:216-226 | what a client receives from two consecutive runs of sends is what it receives from the first, followed by what it receives from the second |
| `Protocol.DeliveredSplit` | backend/server.ts:216-226 | what a client receives across two consecutive steps of a handler is the concatenation of what it receives in each |
| `Uuid.HexValue` | dist/server.js:43-46 | reading a lower-case hex digit gives a value below 16 that spells the digit back |
| `Uuid.HexDigitIsHex` | dist/server.js:43-46 | every digit `toString(16)` writes for 0..15 is a lower-case hex digit and reads back to its value |
| `Uuid.ParseOctet` | dist/server.js:47-49 | two hex digits read as a value below 256 |
| `Uuid.OctetRoundTrip` | dist/server.js:43-46 | the two-digit spelling of an octet consists of hex digits and reads back to the octet |
| `Uuid.TableEntry` | dist/server.js:45 | `(i + 256).toString(16).slice(1)` is the two-digit, zero-padded, lower-case spelling of i, for every i in 0..255 |
| `Uuid.BuildByteToHex` | dist/server.js:43-46 | the push loop leaves 256 entries, entry i being the two-digit spelling of i |
| `Uuid.HexRunAt` | dist/server.js:47-49 | in a run of consecutive table lookups, characters 2j and 2j+1 spell octet from+j |
| `Uuid.StringifyGroups` | dist/server.js:47-49 | `unsafeStringify` is 36 characters long: hyphens at 8, 13, 18 and 23, with the hex of octets offset..offset+3, +4..+5, +6..+7, +8..+9 and +10..+15 between them |
| `Uuid.OctetPosition` | dist/server.js:47-49 | the digits of octet k sit at `CharIndex(k)` of the string form |
| `Uuid.StringifyLayout` | dist/server.js:47-49 | the string form has 36 characters, the hyphens at 8, 13, 18, 23, and octet offset+k spelled at `CharIndex(k)` for every k < 16 |
| `Uuid.StringifyParse` | dist/server.js:47-49 | the output is in the section 3 form of RFC 4122 and parses back to exactly octets offset..offset+15 |
| `Uuid.ParseStringify` | dist/server.js:47-49 | every string in the section 3 form is `unsafeStringify` of the octets it spells, so stringifying is a bijection between 16-octet sequences and lower-case UUID strings |
| `Uuid.StringifySpells` | dist/server.js:47-49 | `unsafeStringify(octets, 0)` spells each of the 16 octets at its position |
| `Uuid.SpellsParsed` | dist/server.js:47-49 | two strings that spell the same octets in the section 3 layout are equal |
| `Uuid.StampVersionBits` | dist/server.js:64-65 | after stamping, the high nibble of octet 6 is 0100 and the top two bits of octet 8 are 10; their other bits and every other octet are as drawn |
| `Uuid.V4TextShape` | dist/server.js:58-73 | the string `v4()` returns is in the section 3 form, with version digit '4' at index 14 and a variant digit in 8, 9, a, b at index 19, and it parses back to the stamped octets |
| `Uuid.V4` | dist/server.js:58-73 | `v4` stamps `rnds` in place. Without a buffer it returns the string form of the stamped octets. With a buffer it copies the 16 octets to `buf[offset..offset+15]`, leaves every other position alone and returns `buf` |
| `Uuid.RoomIdSpellsFirstOctets` | backend/server.ts:112 | a room code, `v4().substring(0, 8)`, is eight hex digits: the spelling of the first four random octets, which the stamping does not touch |
| `RoomSpec.FanoutStep` | backend/server.ts:221-225 | one more member visited by `forEach` adds exactly its own send, if it is not excluded and its socket is open |
| `RoomSpec.BroadcastToRoom` | backend/server.ts:216-226 | a broadcast changes no client, registry or room, and only appends to the outbox |
| `RoomSpec.OnConnection` | backend/server.ts:29-58 | registering a new client preserves the property that every client id held by the registry or by a room leads to a client record |
| `RoomSpec.SocketClosing` | backend/server.ts:222 | a socket leaving OPEN preserves the property that every held client id leads to a client record |
| `RoomSpec.HandleJoinRoom` | backend/server.ts:83-109 | a join keeps every client id held by the registry or a room pointing to a client record |
| `RoomSpec.HandleCreateRoom` | backend/server.ts:111-129 | a create keeps every held client id pointing to a client record |
| `RoomSpec.DemoteController` | backend/server.ts:137-146 | demoting the controller keeps every held client id pointing to a client record |
| `RoomSpec.HandleRequestControl` | backend/server.ts:131-156 | a request keeps every held client id pointing to a client record |
| `RoomSpec.HandleReleaseControl` | backend/server.ts:158-171 | a release keeps every held client id pointing to a client record |
| `RoomSpec.HandleSyncEvent` | backend/server.ts:173-182 | a sync event keeps every held client id pointing to a client record |
| `RoomSpec.HandleClientDisconnect` | backend/server.ts:184-214 | a disconnect keeps every client id still held by the registry or a room pointing to a client record (what it changes is stated by `RoomLemmas.DisconnectState`) |
| `RoomSpec.HandleMessage` | backend/server.ts:61-81 | every dispatched message keeps every held client id pointing to a client record |
| `RoomLemmas.FanoutInbox` | backend/server.ts:221-225 | over a duplicate-free member list, a client receives the message exactly once if it is a member, not excluded and open, and otherwise not at all |
| `RoomLemmas.BroadcastDeliveries` | backend/server.ts:216-226 | `broadcastToRoom` delivers the message once to exactly the current members that are open and not excluded; an unknown room id delivers nothing |
| `RoomLemmas.SingleController` | backend/server.ts:131-156 | under the room invariants, two flagged members of a room are the same client, and that client is the room's `controllerId` |
| `RoomLemmas.ValidIgnoresOutbox` | backend/server.ts:216-226 | sending never affects the room invariants |
| `RoomLemmas.InitialValid` | backend/server.ts:19-20 | the empty registry and room Maps satisfy the room invariants |
| `RoomLemmas.OnConnectionValid` | backend/server.ts:29-58 | registering a newly connected client (fresh v4 id, not controller, in no room) keeps the room invariants |
| `RoomLemmas.SocketClosingValid` | backend/server.ts:222 | a socket leaving the OPEN state keeps the room invariants |
| `RoomLemmas.RoomlessIsNoMember` | backend/server.ts:83-129 | under the invariants, a client with no `roomId` is a member of no room |
| `RoomLemmas.CreateRoomValid` | backend/server.ts:111-129 | creating a room from outside any room, under a code not in use, keeps the room invariants |
| `RoomLemmas.JoinedStateValid` | backend/server.ts:92-94 | setting `client.roomId` and adding the client to the room's members keeps the invariants, for a client that was in no room |
| `RoomLemmas.JoinRoomValid` | backend/server.ts:83-109 | a join by a client in no room keeps the room invariants, whether the room exists or not |
| `RoomLemmas.RequestControlShape` | backend/server.ts:131-151 | from inside a room, a request makes the requester the room's controller and moves the flag from the old controller, if any, to the requester |
| `RoomLemmas.Granted` | backend/server.ts:140-149 | after the hand-over, every client record is unchanged except its flag, which is set for the requester, cleared for the old controller and otherwise kept |
| `RoomLemmas.GrantValid` | backend/server.ts:131-156 | passing control between two members of a room keeps the room invariants |
| `RoomLemmas.RequestControlSingleController` | backend/server.ts:131-156 | after a request from inside a room, the requester is the room's controller and the only member holding `isController` |
| `RoomLemmas.RequestControlValid` | backend/server.ts:131-156 | every request-control keeps the room invariants |
| `RoomLemmas.ReleaseControlValid` | backend/server.ts:158-171 | every release-control keeps the room invariants |
| `RoomLemmas.SyncEventValid` | backend/server.ts:173-182 | relaying a sync event keeps the room invariants |
| `RoomLemmas.LeaveValid` | backend/server.ts:184-214 | removing a client from its room (clearing control if it held it, dropping the room once empty) and from the registry keeps the room invariants |
| `RoomLemmas.DisconnectValid` | backend/server.ts:184-214 | every disconnect keeps the room invariants |
| `RoomLemmas.InboxOne` | backend/server.ts:85-88 | a single unicast is received by its addressee alone |
| `RoomLemmas.JoinRoomUnknown` | backend/server.ts:84-90 | joining an unknown room code changes no client, registry or room, and only the sender receives the 'Room does not exist' error |
| `RoomLemmas.JoinRoomDeliveries` | backend/server.ts:92-108 | a successful join adds the client to the members and sets its `roomId`. Every open member, the joiner included, receives `user-joined` with the new size. Then the joiner alone receives `joined-room` with the same size and its flag |
| `RoomLemmas.SecondJoinBreaksRooms` | backend/server.ts:92-94 | a client already in room r0 that joins another room is still listed by r0 while its `roomId` names the new room, so the invariants fail |
| `RoomLemmas.CreateRoomDeliveries` | backend/server.ts:111-129 | creating stores the room under its 8-character code with the creator as sole member and controller, flags the creator, and sends `room-created` (controller true) to the creator alone |
| `RoomLemmas.CreateCollisionReplacesRoom` | backend/server.ts:112-123 | a code that collides with an existing room replaces it, so that room's other members point to a room that no longer lists them and the invariants fail |
| `RoomLemmas.RequestControlDeliveries` | backend/server.ts:131-156 | a request from a client in no room changes nothing. Otherwise the previous controller alone receives `control-released`, even when it is the requester. Then every open member receives `controller-changed` naming the requester, and nothing else is sent |
| `RoomLemmas.GrantDeliveries` | backend/server.ts:137-155 | for a member of a room: the demotion's unicast, followed by the `controller-changed` broadcast, and nothing else |
| `RoomLemmas.DemoteDeliveries` | backend/server.ts:137-145 | demoting a room's controller clears only its flag and sends `control-released` to it alone; with no controller, nothing happens |
| `RoomLemmas.ReleaseControlDeliveries` | backend/server.ts:158-171 | a release from a client without the flag changes nothing. From the controller it clears the room's `controllerId` and every member's flag. Every open member, the sender included, receives `control-released` with a null id |
| `RoomLemmas.ReleaseIdempotent` | backend/server.ts:158-171 | releasing twice is the same as releasing once: the second release sends nothing |
| `RoomLemmas.SyncEventDeliveries` | backend/server.ts:173-182 | a sync event from a non-controller is dropped. The controller's is relayed unchanged to every other open member of its room and changes nothing else |
| `RoomLemmas.DisconnectState` | backend/server.ts:184-214 | a disconnect unregisters the client and closes its socket. Its room loses it and loses the controller if the client held control; that room is dropped exactly when no member is left; every other room is unchanged |
| `RoomLemmas.Without` | backend/server.ts:190-192 | the room after a member leaves keeps its id and lists exactly the other members |
| `RoomLemmas.DisconnectDeliveries` | backend/server.ts:184-214 | each remaining open member of the room receives `control-released` (null id) if the leaver was controller, and then `user-left` with the remaining member count; nobody else receives anything |
| `RoomLemmas.LastLeaveThenJoinFails` | backend/server.ts:208-210 | after the last member leaves, the room code is gone and joining it only earns the error |
| `RoomLemmas.HandleMessageValid` | backend/server.ts:61-81 | every dispatched message keeps the room invariants, given that create and join come from a client in no room and that a new code is free |
| `Backend.CobrowsingServer.constructor` | backend/server.ts:17-26 | the server starts with no clients, no rooms and nothing sent, and the room invariants hold |
| `Backend.CobrowsingServer.BroadcastToRoom` | backend/server.ts:216-226 | the `forEach` loop leaves exactly the state `RoomSpec.BroadcastToRoom` describes |
| `Backend.CobrowsingServer.OnConnection` | backend/server.ts:29-58 | the 'connection' handler registers a client under the v4 id, in no room and not controller, and sends it `connected`; if every client id the registry or a room holds led to a client record before, it still does |
| `Backend.CobrowsingServer.SocketClosing` | backend/server.ts:222 | the socket of one client leaves the OPEN state; nothing else changes; if every held client id led to a client record before, it still does |
| `Backend.CobrowsingServer.HandleJoinRoom` | backend/server.ts:83-109 | the method leaves exactly the state `RoomSpec.HandleJoinRoom` gives, whose effects `JoinRoomDeliveries` and `JoinRoomValid` state; every client id the registry or a room holds still leads to a client record |
| `Backend.CobrowsingServer.HandleCreateRoom` | backend/server.ts:111-129 | the method leaves exactly the state `RoomSpec.HandleCreateRoom` gives (see `CreateRoomDeliveries`, `CreateRoomValid`); every client id the registry or a room holds still leads to a client record |
| `Backend.CobrowsingServer.HandleRequestControl` | backend/server.ts:131-156 | the method leaves exactly the state `RoomSpec.HandleRequestControl` gives (see `RequestControlDeliveries`, `RequestControlSingleController`); every client id the registry or a room holds still leads to a client record |
| `Backend.CobrowsingServer.HandleReleaseControl` | backend/server.ts:158-171 | the method leaves exactly the state `RoomSpec.HandleReleaseControl` gives (see `ReleaseControlDeliveries`, `ReleaseIdempotent`); every client id the registry or a room holds still leads to a client record |
| `Backend.CobrowsingServer.HandleSyncEvent` | backend/server.ts:173-182 | the method leaves exactly the state `RoomSpec.HandleSyncEvent` gives (see `SyncEventDeliveries`); every client id the registry or a room holds still leads to a client record |
| `Backend.CobrowsingServer.HandleClientDisconnect` | backend/server.ts:184-214 | the method leaves exactly the state `RoomSpec.HandleClientDisconnect` gives (see `DisconnectState`, `DisconnectDeliveries`); every client id the registry or a room holds still leads to a client record |
| `Backend.CobrowsingServer.HandleMessage` | backend/server.ts:61-81 | the dispatch leaves exactly the state `RoomSpec.HandleMessage` gives, and so keeps the invariants (`HandleMessageValid`); every client id the registry or a room holds still leads to a client record |
| `SessionSpec.NewSession` | server.js:85-93 | a new session carries its id, no teacher, no students, no URL and an empty log |
| `SessionSpec.Without` | server.js:179 | the students filter keeps exactly the entries whose id is not the socket's, and never grows |
| `SessionSpec.WithoutKeepsOrder` | server.js:179 | the filter works entry by entry: filtering a concatenation filters each part and concatenates, so the remaining students keep their order (the order `session-joined` later sends) |
| `SessionLemmas.JoinUnseenSession` | server.js:85-114 | joining an unseen session creates it empty and then seats the joiner: in the teacher slot for role teacher, as the only student otherwise |
| `SessionLemmas.SecondTeacherRefused` | server.js:96-104 | a teacher joining a session that has one is sent 'Session already has a teacher'. No session changes and the socket joins no room, but its session and role are already recorded |
| `SessionLemmas.JoinAccepted` | server.js:100-132 | an accepted join seats the joiner: the teacher slot for role teacher, appended to the students for every other role, 'iframe' included. The socket joins the session's room, gets `session-joined` with the URL and participants, and the others get `user-joined` |
| `SessionLemmas.TeacherSlotKept` | server.js:100-108 | no join replaces a session's teacher |
| `SessionLemmas.NavigateTeacherOnly` | server.js:137-150 | navigation from a non-teacher only earns the error. A teacher in a live session sets its URL, and everyone in the room hears `navigate`, the sender too if it joined the room |
| `SessionLemmas.RefusedTeacherStillNavigates` | server.js:96-104 | a teacher refused by an occupied slot can still set the session's URL, because its role is recorded before the check |
| `SessionLemmas.InteractionTeacherOnly` | server.js:152-168 | a non-teacher's interaction changes nothing. A teacher's grows the log by exactly one entry, stamped with the current time, and goes to everyone in the room but the sender |
| `SessionLemmas.DisconnectFromSession` | server.js:170-193 | the teacher slot is cleared only when it holds this socket and the socket's role is teacher; otherwise this socket's entries leave the students. The others hear `user-left`. The session is deleted exactly when it has no teacher and no students, and no other session changes |
| `SessionLemmas.EmptySessionIdNeverCleaned` | server.js:173 | a socket that joined the session with the empty id is still listed there after it disconnects, because the empty string is falsy |
| `SessionLemmas.SecondJoinLeavesStaleStudent` | server.js:95-114 | a socket that joins a second session stays listed by the first; after it disconnects, the first session still lists it and is not deleted |
| `SessionLemmas.InitialValid` | server.js:24 | the empty `sessions` Map satisfies the session-store invariant |
| `SessionLemmas.OnConnectValid` | server.js:79-80 | a connection keeps the session-store invariant: every session is stored under its id and has a participant |
| `SessionLemmas.JoinSessionValid` | server.js:82-135 | a join keeps the session-store invariant |
| `SessionLemmas.NavigateValid` | server.js:137-150 | navigation keeps the session-store invariant |
| `SessionLemmas.InteractionValid` | server.js:152-168 | an interaction keeps the session-store invariant |
| `SessionLemmas.DisconnectValid` | server.js:170-193 | a disconnect keeps the session-store invariant: every stored session lists at least one participant, because a session whose last listed participant leaves is deleted |
| `SessionStore.SessionServer.constructor` | server.js:24 | the store starts with no sessions, no sockets and nothing emitted, and the session-store invariant holds |
| `SessionStore.SessionServer.OnConnect` | server.js:79-80 | the method leaves exactly the state `SessionSpec.OnConnect` gives |
| `SessionStore.SessionServer.JoinSession` | server.js:82-135 | the method leaves exactly the state `SessionSpec.JoinSession` gives |
| `SessionStore.SessionServer.NavigateTo` | server.js:137-150 | the method leaves exactly the state `SessionSpec.NavigateTo` gives |
| `SessionStore.SessionServer.OnInteraction` | server.js:152-168 | the method leaves exactly the state `SessionSpec.OnInteraction` gives |
| `SessionStore.SessionServer.Disconnect` | server.js:170-193 | the method leaves exactly the state `SessionSpec.Disconnect` gives |
| `BackgroundLemmas.ControlMessages` | extension/src/background.js:234-249 | `controller-changed` sets the flag exactly when the named id is this client's id; `control-released` clears it; neither touches another field |
| `BackgroundLemmas.ConnectedStoresId` | extension/src/background.js:226-232 | `connected` stores the server-assigned id and changes nothing else |
| `BackgroundLemmas.ResetsAgree` | extension/src/background.js:95-101 | `disconnect()` and the socket's close both reset the connection flag, the id, the room and the flag. Only `disconnect()` drops the socket, and neither sends anything |
| `BackgroundLemmas.LeaveRoomIsLocal` | extension/src/background.js:196-200 | `leaveRoom` clears the room and the flag and sends nothing to the server |
| `BackgroundLemmas.SyncEventGate` | extension/src/background.js:214-222 | a sync event is sent, as one `sync-event` request, exactly when there is a socket, a room and the controller flag; otherwise nothing changes |
| `BackgroundLemmas.ControlRequestGates` | extension/src/background.js:202-212 | control is requested or released exactly when there is a socket and a room; the flag waits for the server's answer |
| `BackgroundLemmas.SyncEventGuard` | extension/src/background.js:262-278 | an incoming sync event reaches the active tab exactly when this client is not the controller |
| `BackgroundLemmas.TabLoadedGate` | extension/src/background.js:307-313 | a finished page load is sent as a 'navigation' sync event with the tab's URL exactly when the extension controls a room over a socket |
| `BackgroundLemmas.RepliesAdopted` | extension/src/background.js:141-186 | `room-created` and `joined-room` replies set the room and the flag from the message. An `error` settles a join as refused with the server's text and leaves the state alone |
| `BackgroundLemmas.ConnectWhenConnected` | extension/src/background.js:82-93 | `connect()` returns at once when connected; otherwise it opens a socket that is not yet connected |
| `BackgroundLemmas.HandleAllAppend` | extension/src/background.js:109-112 | handling two runs of server messages in turn equals handling their concatenation |
| `BackgroundLemmas.HandleAllKeepsRoom` | extension/src/background.js:224-260 | server messages never change the room, never make the extension send and never touch the socket or the connection flag |
| `BackgroundLemmas.QuietMessagesKeepFlag` | extension/src/background.js:224-260 | messages other than the two control messages and `connected` leave the flag and the id alone |
| `BackgroundLemmas.LastControlMessageDecides` | extension/src/background.js:234-249 | after any message history, the flag is decided by the last control message: set only if it is `controller-changed` naming this client's id |
| `Extension.CobrowsingBackground.constructor` | extension/src/background.js:2-9 | the extension starts without socket, id or room, and is neither controller nor connected |
| `Extension.CobrowsingBackground.HandleServerMessage` | extension/src/background.js:224-260 | the method leaves exactly the state `BackgroundSpec.HandleServerMessage` gives |
| `Extension.CobrowsingBackground.HandleSyncEvent` | extension/src/background.js:262-278 | the method leaves exactly the state `BackgroundSpec.HandleSyncEvent` gives |
| `Extension.CobrowsingBackground.Connect` | extension/src/background.js:82-87 | the method leaves exactly the state `BackgroundSpec.Connect` gives |
| `Extension.CobrowsingBackground.OnOpen` | extension/src/background.js:89-93 | the method leaves exactly the state `BackgroundSpec.OnOpen` gives |
| `Extension.CobrowsingBackground.OnClose` | extension/src/background.js:95-102 | the method leaves exactly the state `BackgroundSpec.OnClose` gives |
| `Extension.CobrowsingBackground.Disconnect` | extension/src/background.js:120-129 | the method leaves exactly the state `BackgroundSpec.Disconnect` gives |
| `Extension.CobrowsingBackground.LeaveRoom` | extension/src/background.js:196-200 | the method leaves exactly the state `BackgroundSpec.LeaveRoom` gives |
| `Extension.CobrowsingBackground.RequestControl` | extension/src/background.js:202-206 | the method leaves exactly the state `BackgroundSpec.RequestControl` gives |
| `Extension.CobrowsingBackground.ReleaseControl` | extension/src/background.js:208-212 | the method leaves exactly the state `BackgroundSpec.ReleaseControl` gives |
| `Extension.CobrowsingBackground.SendSyncEvent` | extension/src/background.js:214-222 | the method leaves exactly the state `BackgroundSpec.SendSyncEvent` gives |
| `Extension.CobrowsingBackground.TabLoaded` | extension/src/background.js:308-312 | the method leaves exactly the state `BackgroundSpec.TabLoaded` gives |
| `Extension.CobrowsingBackground.SendCreateRoom` | extension/src/background.js:156 | the method leaves exactly the state `BackgroundSpec.SendCreateRoom` gives |
| `Extension.CobrowsingBackground.SendJoinRoom` | extension/src/background.js:189-192 | the method leaves exactly the state `BackgroundSpec.SendJoinRoom` gives |
| `Extension.CobrowsingBackground.OnCreateRoomReply` | extension/src/background.js:141-154 | the method leaves exactly the state `BackgroundSpec.CreateRoomReply` gives, and returns the room code exactly when the message is `room-created` |
| `Extension.CobrowsingBackground.OnJoinRoomReply` | extension/src/background.js:170-187 | the method leaves exactly the state `BackgroundSpec.JoinRoomReply` gives, and reports how the pending join settles |
| `Scenarios.ControlHandOver` | backend/server.ts:131-156 | after a request for control, every open member of the room whose extension knows its own id ends with the flag exactly when it is the requester. This holds even when the requester already held control and first hears `control-released` |
| `Scenarios.ControllerLeaves` | backend/server.ts:184-214 | when the controller disconnects, every other open member's extension ends without the flag |
| `Scenarios.JoinFlow` | backend/server.ts:92-108 | a joining client receives two messages. Its waiting `joinRoom` handler passes the first on and adopts the second, so the extension ends in the room, not controller, with the join settled |
| `Scenarios.SyncRelayed` | backend/server.ts:173-182 | a controller's sync event reaches the active tab of every other open member whose extension is not controller |

## Left out

- Transport: WebSocket and socket.io sockets, JSON encoding and decoding, and logging are not modelled.
  - Sends are outbox entries; the socket state is an `open` flag.
  - A message that fails to parse is only logged by the source, like an unknown type; the model's `Other` request stands for both.
- An outbox entry records a `ws.send` call, not a delivery. Broadcasts skip members whose socket is not OPEN, as `broadcastToRoom` does. The unicast replies to the sender (`error`, `joined-room`, `room-created`, and the demoted controller's `control-released`) are recorded whatever the socket's state, because the source does not check `readyState` before them. What the network then does with a send on a closing socket is not modelled.
- `SessionLemmas.DisconnectValid`: promises only that every stored session lists at least one participant, not that a listed participant is still connected. server.js leaves stale entries in two cases. A socket whose session id is the empty string is never cleaned up (`EmptySessionIdNeverCleaned`). A socket that joined a second session is cleaned only from the last one (`SecondJoinLeavesStaleStudent`).
- `uuid.v4`'s native `crypto.randomUUID` path, the `options` object and the `rng` are not modelled. The 16 random octets are a parameter, so the model covers the fallback path.
- `Uuid.V4`: requires the random array and the target buffer to be different arrays, and the buffer to have room for 16 octets from `offset`. The source does not check these.
- `RoomSpec.OnConnection` and `Backend.CobrowsingServer.OnConnection`: require the drawn id to be unused. The source assumes uuids do not collide.
- Aliasing: client records are shared objects in the source. The model keeps each record once, under its id, and rooms refer to it by id. A record outlives its registry entry because a room may still hold it.
- The room invariants are proved only for create and join from a client in no room, with a fresh code. The source does not enforce this; `SecondJoinBreaksRooms` and `CreateCollisionReplacesRoom` show what happens otherwise.
- The 'connection' and 'close' wiring, `JSON.stringify` of the messages and the console output of backend/server.ts are not modelled beyond the handler calls.
- server.js: a socket.io socket's own room (named by its id) is not modelled. `role` and `userName` are strings, so an `undefined` field is not modelled.
  - Interaction payloads are opaque strings, so the spread of the payload's properties into the log entry is not modelled.
  - `Date.now()` is a parameter.
  - The `/proxy` endpoint is not part of this model: it fetches pages over HTTP and rewrites them with cheerio.
- extension/src/background.js:
  - Promise plumbing and the 5-second timeouts are not modelled, and neither is the swapping of `ws.onmessage`. While a `createRoom` or `joinRoom` is pending, the wrapper handler is modelled as `CreateRoomReply` or `JoinRoomReply`.
  - `chrome.runtime` and `chrome.tabs` messaging (`notifyPopup`, `notifyContentScripts`, the `set-controller` re-notification) is not modelled. The active tab is a list of forwarded sync events.
  - The `get-status` reply and the `handleMessage` routing of popup commands are not modelled; each command maps to one method.
  - The WebSocket's `onerror` rejection is not modelled.
- `Extension.CobrowsingBackground.SendCreateRoom` and `SendJoinRoom`: model only the request sent once a socket exists. The automatic `connect()` before it is a separate `Connect` call.
- index.js (a stateless socket.io relay), presignedUrls.js (one library call), the UI (public/app.js, extension/src/popup.js) and the DOM capture and replay scripts (extension/src/content.js, extension/src/injected.js, public/cobrowsing-client.js) are not part of this model.
