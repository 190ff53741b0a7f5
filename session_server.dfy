/** The socket.io handlers of server.js over the mutable `sessions` Map,
    each proved to leave exactly the state session_spec.dfy describes. */
module SessionStore {
  import opened Collections
  import opened SessionSpec

  class SessionServer {
    var sessions: map<SessionId, Session>
    var sockets: map<SocketId, SocketState>
    var outbox: seq<Emit>

    function State(): Hub
      reads this
    {
      Hub(sessions, sockets, outbox)
    }

    constructor ()
      ensures State() == Initial && HubValid(State())
    {
      sessions := map[];
      sockets := map[];
      outbox := [];
    }

    /** io.on('connection'). */
    method OnConnect(sock: SocketId)
      requires sock !in sockets
      modifies this
      ensures State() == SessionSpec.OnConnect(old(State()), sock)
    {
      sockets := sockets[sock := SocketState(None, None, None, {})];
    }

    method JoinSession(sock: SocketId, sessionId: SessionId, role: string, userName: string)
      requires sock in sockets
      modifies this
      ensures State() == SessionSpec.JoinSession(old(State()), sock, sessionId, role, userName)
    {
      if sessionId !in sessions {
        sessions := sessions[sessionId := NewSession(sessionId)];
      }
      var session := sessions[sessionId];
      var st := sockets[sock].(sessionId := Some(sessionId), role := Some(role), userName := Some(userName));
      sockets := sockets[sock := st];
      if role == TeacherRole {
        if session.teacher.Some? {
          outbox := outbox + [Emit({sock}, Error(TeacherTaken))];
          return;
        }
        session := session.(teacher := Some(Person(sock, userName)));
      } else {
        session := session.(students := session.students + [Person(sock, userName)]);
      }
      sessions := sessions[sessionId := session];
      sockets := sockets[sock := st.(joined := st.joined + {sessionId})];
      outbox := outbox + [Emit({sock}, SessionJoined(sessionId, role, session.currentUrl, session.teacher, session.students))];
      outbox := outbox + [Emit(Members(sockets, sessionId) - {sock}, UserJoined(Person(sock, userName), role))];
    }

    method NavigateTo(sock: SocketId, url: string)
      requires sock in sockets
      modifies this
      ensures State() == SessionSpec.NavigateTo(old(State()), sock, url)
    {
      var st := sockets[sock];
      if st.role != Some(TeacherRole) {
        outbox := outbox + [Emit({sock}, Error(OnlyTeachers))];
        return;
      }
      if st.sessionId.Some? && st.sessionId.value in sessions {
        var sid := st.sessionId.value;
        sessions := sessions[sid := sessions[sid].(currentUrl := Some(url))];
        outbox := outbox + [Emit(Members(sockets, sid), Navigate(url))];
      }
    }

    /** socket.on('interaction'); `now` is the value `Date.now()` returns. */
    method OnInteraction(sock: SocketId, data: string, now: int)
      requires sock in sockets
      modifies this
      ensures State() == SessionSpec.OnInteraction(old(State()), sock, data, now)
    {
      var st := sockets[sock];
      if st.role != Some(TeacherRole) {
        return;
      }
      if st.sessionId.Some? && st.sessionId.value in sessions {
        var sid := st.sessionId.value;
        var session := sessions[sid];
        sessions := sessions[sid := session.(interactions := session.interactions + [Interaction(data, now)])];
        outbox := outbox + [Emit(Members(sockets, sid) - {sock}, SyncInteraction(data))];
      }
    }

    /** socket.on('disconnect'); socket.io removes the socket from its rooms first. */
    method Disconnect(sock: SocketId)
      requires sock in sockets
      modifies this
      ensures State() == SessionSpec.Disconnect(old(State()), sock)
    {
      var st := sockets[sock];
      sockets := sockets - {sock};
      if !Truthy(st.sessionId) || st.sessionId.value !in sessions {
        return;
      }
      var sid := st.sessionId.value;
      var session := sessions[sid];
      if st.role == Some(TeacherRole) && session.teacher.Some? && session.teacher.value.id == sock {
        session := session.(teacher := None);
      } else {
        session := session.(students := Without(session.students, sock));
      }
      outbox := outbox + [Emit(Members(sockets, sid), UserLeft(sock, st.role))];
      if session.teacher.None? && |session.students| == 0 {
        sessions := sessions - {sid};
      } else {
        sessions := sessions[sid := session];
      }
    }
  }
}
