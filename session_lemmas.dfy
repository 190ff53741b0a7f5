/** What the socket.io handlers of server.js promise, proved of the value
    model in session_spec.dfy. */
module SessionLemmas {
  import opened Collections
  import opened SessionSpec

  /** A join to an unseen session creates it empty (no teacher, no
      students, no URL, no interactions) and then seats the joiner: in the
      teacher slot for role teacher, as the only student for any other role. */
  lemma JoinUnseenSession(h: Hub, sock: SocketId, sessionId: SessionId, role: string, userName: string)
    requires sock in h.sockets && sessionId !in h.sessions
    ensures var t := JoinSession(h, sock, sessionId, role, userName);
      && sessionId in t.sessions
      && t.sessions[sessionId]
         == if role == TeacherRole then NewSession(sessionId).(teacher := Some(Person(sock, userName)))
            else NewSession(sessionId).(students := [Person(sock, userName)])
  {
  }

  /** A second teacher is refused: only it hears the error, no session and
      no socket.io room changes, yet its role and session are already
      recorded on the socket. */
  lemma SecondTeacherRefused(h: Hub, sock: SocketId, sessionId: SessionId, userName: string)
    requires sock in h.sockets && sessionId in h.sessions && h.sessions[sessionId].teacher.Some?
    ensures var t := JoinSession(h, sock, sessionId, TeacherRole, userName);
      && t.sessions == h.sessions
      && sock in t.sockets && t.sockets.Keys == h.sockets.Keys
      && t.sockets[sock].joined == h.sockets[sock].joined
      && t.sockets[sock].sessionId == Some(sessionId) && IsTeacher(t.sockets[sock])
      && t.outbox == h.outbox + [Emit({sock}, Error(TeacherTaken))]
  {
  }

  /** A join that is not refused seats the joiner (the teacher slot for
      role teacher, appended to the students for every other role, 'iframe'
      included), puts the socket in the session's room, sends it
      `session-joined` with the URL and participants, and tells everyone
      else in the room `user-joined`. */
  lemma JoinAccepted(h: Hub, sock: SocketId, sessionId: SessionId, role: string, userName: string)
    requires sock in h.sockets
    requires role == TeacherRole ==> sessionId !in h.sessions || h.sessions[sessionId].teacher.None?
    ensures var t := JoinSession(h, sock, sessionId, role, userName);
      var before := if sessionId in h.sessions then h.sessions[sessionId] else NewSession(sessionId);
      var me := Person(sock, userName);
      var after := t.sessions[sessionId];
      && sessionId in t.sessions
      && (role == TeacherRole ==> after == before.(teacher := Some(me)))
      && (role != TeacherRole ==> after == before.(students := before.students + [me]))
      && t.sessions - {sessionId} == h.sessions - {sessionId}
      && sessionId in t.sockets[sock].joined
      && t.outbox == h.outbox
         + [Emit({sock}, SessionJoined(sessionId, role, after.currentUrl, after.teacher, after.students)),
            Emit(Members(h.sockets, sessionId) - {sock}, UserJoined(me, role))]
  {
    var t := JoinSession(h, sock, sessionId, role, userName);
    assert Members(t.sockets, sessionId) - {sock} == Members(h.sockets, sessionId) - {sock};
  }

  /** A session never holds two teachers: a teacher slot once filled is
      only emptied by that teacher's disconnect, and every further teacher
      join is refused. */
  lemma TeacherSlotKept(h: Hub, sock: SocketId, sessionId: SessionId, role: string, userName: string)
    requires sock in h.sockets && sessionId in h.sessions && h.sessions[sessionId].teacher.Some?
    ensures var t := JoinSession(h, sock, sessionId, role, userName);
      t.sessions[sessionId].teacher == h.sessions[sessionId].teacher
  {
  }

  /** Navigation is for teachers: anyone else only gets the error. A
      teacher in a live session sets its URL and everyone in the session's
      room hears `navigate`, the sender included when it joined the room. */
  lemma NavigateTeacherOnly(h: Hub, sock: SocketId, url: string)
    requires sock in h.sockets
    ensures var t := NavigateTo(h, sock, url);
      !IsTeacher(h.sockets[sock]) ==>
        t == h.(outbox := h.outbox + [Emit({sock}, Error(OnlyTeachers))])
    ensures var t := NavigateTo(h, sock, url);
      var st := h.sockets[sock];
      IsTeacher(st) && st.sessionId.Some? && st.sessionId.value in h.sessions ==>
        var sid := st.sessionId.value;
        && t.sessions == h.sessions[sid := h.sessions[sid].(currentUrl := Some(url))]
        && t.sockets == h.sockets
        && t.outbox == h.outbox + [Emit(Members(h.sockets, sid), Navigate(url))]
        && (sid in st.joined ==> sock in t.outbox[|h.outbox|].to)
  {
  }

  /** As written, the role is recorded before the teacher slot is checked,
      so a refused second teacher can still set the session's URL. */
  lemma RefusedTeacherStillNavigates(h: Hub, sock: SocketId, sessionId: SessionId, userName: string, url: string)
    requires sock in h.sockets && sessionId in h.sessions && h.sessions[sessionId].teacher.Some?
    ensures var t := JoinSession(h, sock, sessionId, TeacherRole, userName);
      var u := NavigateTo(t, sock, url);
      && t.sessions[sessionId].teacher == h.sessions[sessionId].teacher
      && u.sessions[sessionId].currentUrl == Some(url)
  {
  }

  /** A non-teacher's interaction changes nothing and is not relayed. A
      teacher's grows the session's log by exactly one entry, stamped
      `now`, and goes to everyone else in the room. */
  lemma InteractionTeacherOnly(h: Hub, sock: SocketId, data: string, now: int)
    requires sock in h.sockets
    ensures !IsTeacher(h.sockets[sock]) ==> OnInteraction(h, sock, data, now) == h
    ensures var t := OnInteraction(h, sock, data, now);
      var st := h.sockets[sock];
      IsTeacher(st) && st.sessionId.Some? && st.sessionId.value in h.sessions ==>
        var sid := st.sessionId.value;
        var log := h.sessions[sid].interactions;
        && sid in t.sessions
        && t.sessions[sid].interactions == log + [Interaction(data, now)]
        && |t.sessions[sid].interactions| == |log| + 1
        && t.sessions[sid] == h.sessions[sid].(interactions := t.sessions[sid].interactions)
        && t.outbox == h.outbox + [Emit(Members(h.sockets, sid) - {sock}, SyncInteraction(data))]
        && sock !in t.outbox[|h.outbox|].to
  {
  }

  /** On disconnect of a socket in a live session: the teacher slot is
      emptied only when it holds this socket and the socket's role is
      teacher, otherwise exactly the entries with this socket's id leave the
      students; the others hear `user-left`; the session is deleted exactly
      when it is left without teacher and students. */
  lemma DisconnectFromSession(h: Hub, sock: SocketId)
    requires sock in h.sockets
    requires Truthy(h.sockets[sock].sessionId) && h.sockets[sock].sessionId.value in h.sessions
    ensures var t := Disconnect(h, sock);
      var st := h.sockets[sock];
      var sid := st.sessionId.value;
      var session := h.sessions[sid];
      var wasTeacher := IsTeacher(st) && session.teacher.Some? && session.teacher.value.id == sock;
      var teacher := if wasTeacher then None else session.teacher;
      var students := if wasTeacher then session.students else Without(session.students, sock);
      && t.sockets == h.sockets - {sock}
      && (sid in t.sessions <==> teacher.Some? || students != [])
      && (sid in t.sessions ==> t.sessions[sid] == session.(teacher := teacher, students := students))
      && t.sessions - {sid} == h.sessions - {sid}
      && t.outbox == h.outbox + [Emit(Members(h.sockets, sid) - {sock}, UserLeft(sock, st.role))]
  {
    var st := h.sockets[sock];
    var sid := st.sessionId.value;
    assert Members(h.sockets - {sock}, sid) == Members(h.sockets, sid) - {sock};
  }

  /** As written, a socket whose session id is the empty string is not
      cleaned up: its session keeps listing it after it disconnects. */
  lemma EmptySessionIdNeverCleaned(h: Hub, sock: SocketId, userName: string)
    requires sock in h.sockets && "" !in h.sessions
    ensures var t := JoinSession(h, sock, "", "student", userName);
      var u := Disconnect(t, sock);
      && "" in u.sessions && Person(sock, userName) in u.sessions[""].students
      && sock !in u.sockets
  {
    var t := JoinSession(h, sock, "", "student", userName);
    assert t.sessions[""].students == [Person(sock, userName)];
  }

  /** As written, joining a second session never takes the socket out of
      the first: after it disconnects, the first session still lists it,
      since only the last session id recorded on the socket is cleaned. */
  lemma SecondJoinLeavesStaleStudent(h: Hub, sock: SocketId, first: SessionId, second: SessionId, userName: string)
    requires sock in h.sockets && first !in h.sessions && first != second
    ensures var t := JoinSession(JoinSession(h, sock, first, "student", userName), sock, second, "student", userName);
      var u := Disconnect(t, sock);
      && first in u.sessions && u.sessions[first].students == [Person(sock, userName)]
      && sock !in u.sockets
  {
    var t1 := JoinSession(h, sock, first, "student", userName);
    assert t1.sessions[first].students == [Person(sock, userName)];
    var t := JoinSession(t1, sock, second, "student", userName);
    assert t.sessions[first] == t1.sessions[first];
    assert t.sockets[sock].sessionId == Some(second);
  }

  /** The empty store keeps the invariant. */
  lemma InitialValid()
    ensures HubValid(Initial)
  {
  }

  lemma OnConnectValid(h: Hub, sock: SocketId)
    requires HubValid(h) && sock !in h.sockets
    ensures HubValid(OnConnect(h, sock))
  {
  }

  lemma JoinSessionValid(h: Hub, sock: SocketId, sessionId: SessionId, role: string, userName: string)
    requires HubValid(h) && sock in h.sockets
    ensures HubValid(JoinSession(h, sock, sessionId, role, userName))
  {
    var t := JoinSession(h, sock, sessionId, role, userName);
    forall sid | sid in t.sessions
      ensures t.sessions[sid].id == sid && (t.sessions[sid].teacher.Some? || t.sessions[sid].students != [])
    {
      if sid == sessionId && sessionId in h.sessions {
        assert h.sessions[sid].teacher.Some? || h.sessions[sid].students != [];
      }
    }
  }

  lemma NavigateValid(h: Hub, sock: SocketId, url: string)
    requires HubValid(h) && sock in h.sockets
    ensures HubValid(NavigateTo(h, sock, url))
  {
  }

  lemma InteractionValid(h: Hub, sock: SocketId, data: string, now: int)
    requires HubValid(h) && sock in h.sockets
    ensures HubValid(OnInteraction(h, sock, data, now))
  {
  }

  /** After a disconnect every stored session still lists a participant:
      a session whose last listed participant leaves is deleted. */
  lemma DisconnectValid(h: Hub, sock: SocketId)
    requires HubValid(h) && sock in h.sockets
    ensures HubValid(Disconnect(h, sock))
  {
  }
}
