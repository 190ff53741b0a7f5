/** The socket.io session store of server.js as a value: the `sessions`
    Map, the fields the handlers set on each socket, the socket.io rooms
    each socket has joined, and an outbox of emits. One function per
    handler gives the state after it. */
module SessionSpec {
  import opened Collections

  type SocketId = string
  type SessionId = string

  /** A participant entry `{id, name}`. */
  datatype Person = Person(id: SocketId, name: string)

  /** One entry of the interaction log: the relayed payload and the
      `timestamp` the server stamped on it. */
  datatype Interaction = Interaction(data: string, timestamp: int)

  datatype Session = Session(
    id: SessionId,
    teacher: Option<Person>,
    students: seq<Person>,
    currentUrl: Option<string>,
    interactions: seq<Interaction>)

  /** The fields the handlers store on a socket (`socket.sessionId`,
      `socket.role`, `socket.userName`; absent until the first join) and the
      socket.io rooms it has joined. */
  datatype SocketState = SocketState(
    sessionId: Option<SessionId>,
    role: Option<string>,
    userName: Option<string>,
    joined: set<SessionId>)

  /** What the server emits. */
  datatype Event =
    | Error(text: string)
    | SessionJoined(sessionId: SessionId, role: string, currentUrl: Option<string>,
                    teacher: Option<Person>, students: seq<Person>)
    | UserJoined(user: Person, role: string)
    | Navigate(url: string)
    | SyncInteraction(data: string)
    | UserLeft(id: SocketId, leftRole: Option<string>)

  /** One emit, to the set of sockets it reaches. */
  datatype Emit = Emit(to: set<SocketId>, event: Event)

  datatype Hub = Hub(
    sessions: map<SessionId, Session>,
    sockets: map<SocketId, SocketState>,
    outbox: seq<Emit>)

  const TeacherRole: string := "teacher"
  const TeacherTaken: string := "Session already has a teacher"
  const OnlyTeachers: string := "Only teachers can navigate"

  const Initial: Hub := Hub(map[], map[], [])

  /** A freshly created session. */
  function NewSession(id: SessionId): (r: Session)
    ensures r.id == id && r.teacher.None? && r.students == []
    ensures r.currentUrl.None? && r.interactions == []
  {
    Session(id, None, [], None, [])
  }

  /** The connected sockets in socket.io room `room`: what `io.to(room)`
      reaches; `socket.to(room)` reaches the same set without the sender. */
  function Members(sockets: map<SocketId, SocketState>, room: SessionId): set<SocketId>
  {
    set k | k in sockets && room in sockets[k].joined
  }

  predicate IsTeacher(st: SocketState) {
    st.role == Some(TeacherRole)
  }

  /** `students.filter(student => student.id !== id)`. */
  function Without(students: seq<Person>, id: SocketId): (r: seq<Person>)
    ensures forall p :: p in r <==> p in students && p.id != id
    ensures |r| <= |students|
  {
    if students == [] then []
    else (if students[0].id == id then [] else [students[0]]) + Without(students[1..], id)
  }

  /** The filter works entry by entry, so the students it keeps stay in their
      order: filtering a concatenation filters each part and concatenates. */
  lemma {:induction false} WithoutKeepsOrder(a: seq<Person>, b: seq<Person>, id: SocketId)
    ensures Without(a + b, id) == Without(a, id) + Without(b, id)
    decreases |a|
  {
    if a == [] {
      assert a + b == b;
    } else {
      assert (a + b)[1..] == a[1..] + b;
      WithoutKeepsOrder(a[1..], b, id);
    }
  }

  /** A socket connects: no fields set, no rooms. */
  function OnConnect(h: Hub, sock: SocketId): (t: Hub)
    requires sock !in h.sockets
  {
    h.(sockets := h.sockets[sock := SocketState(None, None, None, {})])
  }

  /** 'join-session': the session is created if unseen and the socket's
      fields are set before the teacher slot is checked. */
  function JoinSession(h: Hub, sock: SocketId, sessionId: SessionId, role: string, userName: string): (t: Hub)
    requires sock in h.sockets
  {
    var h1 := if sessionId in h.sessions then h
              else h.(sessions := h.sessions[sessionId := NewSession(sessionId)]);
    var session := h1.sessions[sessionId];
    var st := h1.sockets[sock].(sessionId := Some(sessionId), role := Some(role), userName := Some(userName));
    var h2 := h1.(sockets := h1.sockets[sock := st]);
    if role == TeacherRole && session.teacher.Some? then
      h2.(outbox := h2.outbox + [Emit({sock}, Error(TeacherTaken))])
    else
      var me := Person(sock, userName);
      var joined := if role == TeacherRole then session.(teacher := Some(me))
                    else session.(students := session.students + [me]);
      var h3 := h2.(sessions := h2.sessions[sessionId := joined],
                    sockets := h2.sockets[sock := st.(joined := st.joined + {sessionId})]);
      h3.(outbox := h3.outbox
        + [Emit({sock}, SessionJoined(sessionId, role, joined.currentUrl, joined.teacher, joined.students)),
           Emit(Members(h3.sockets, sessionId) - {sock}, UserJoined(me, role))])
  }

  /** 'navigate-to': refused to a socket whose role is not teacher;
      otherwise the session's URL is set and everyone in its room,
      the sender included, is told. */
  function NavigateTo(h: Hub, sock: SocketId, url: string): (t: Hub)
    requires sock in h.sockets
  {
    var st := h.sockets[sock];
    if !IsTeacher(st) then h.(outbox := h.outbox + [Emit({sock}, Error(OnlyTeachers))])
    else if st.sessionId.None? || st.sessionId.value !in h.sessions then h
    else
      var sid := st.sessionId.value;
      h.(sessions := h.sessions[sid := h.sessions[sid].(currentUrl := Some(url))],
         outbox := h.outbox + [Emit(Members(h.sockets, sid), Navigate(url))])
  }

  /** 'interaction': dropped from a non-teacher; a teacher's is logged with
      the time `now` and relayed to the others in the room. */
  function OnInteraction(h: Hub, sock: SocketId, data: string, now: int): (t: Hub)
    requires sock in h.sockets
  {
    var st := h.sockets[sock];
    if !IsTeacher(st) || st.sessionId.None? || st.sessionId.value !in h.sessions then h
    else
      var sid := st.sessionId.value;
      var session := h.sessions[sid];
      h.(sessions := h.sessions[sid := session.(interactions := session.interactions + [Interaction(data, now)])],
         outbox := h.outbox + [Emit(Members(h.sockets, sid) - {sock}, SyncInteraction(data))])
  }

  /** 'disconnect': socket.io has already taken the socket out of its rooms.
      The teacher slot is cleared when it is this socket and the socket's
      role is teacher; otherwise the socket is filtered out of the students.
      The others hear `user-left`; a session left with no participant is
      deleted. */
  function Disconnect(h: Hub, sock: SocketId): (t: Hub)
    requires sock in h.sockets
  {
    var st := h.sockets[sock];
    var h0 := h.(sockets := h.sockets - {sock});
    if !Truthy(st.sessionId) || st.sessionId.value !in h.sessions then h0
    else
      var sid := st.sessionId.value;
      var session := h.sessions[sid];
      var left := if IsTeacher(st) && session.teacher.Some? && session.teacher.value.id == sock
                  then session.(teacher := None)
                  else session.(students := Without(session.students, sock));
      var h1 := h0.(outbox := h0.outbox + [Emit(Members(h0.sockets, sid), UserLeft(sock, st.role))]);
      if left.teacher.None? && left.students == [] then h1.(sessions := h1.sessions - {sid})
      else h1.(sessions := h1.sessions[sid := left])
  }

  /** Every stored session is kept under its id and has a participant. */
  predicate HubValid(h: Hub) {
    forall sid | sid in h.sessions ::
      h.sessions[sid].id == sid && (h.sessions[sid].teacher.Some? || h.sessions[sid].students != [])
  }
}
