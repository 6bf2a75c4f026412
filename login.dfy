/**
 * Logging in and out: a client presents a username and password and gets a
 * session token back; presenting the token again ends the session.
 */
module ServerLogin {
  import opened Wrappers
  import opened Models
  import opened Responses
  import opened Utils
  import opened ClientDao
  import opened SessionDao

  const ClientNotFound := "client not found"
  const InvalidCredentials := "invalid credentials"
  const SessionNotFound := "session not found"
  const LoggedOut := "logout realizado com sucesso"

  /** Some stored client has the username `username`. */
  ghost predicate Registered(clients: ClientStore, username: string)
    reads clients
  {
    exists k | k in clients.data :: clients.data[k].username == username
  }

  /**
   * A stored client with the username `username`, the first met in the
   * store's iteration order; fails with "client not found" exactly when
   * there is none.
   */
  method GetClient(clients: ClientStore, username: string) returns (r: Result<Client, string>)
    ensures r.Failure? <==> !Registered(clients, username)
    ensures r.Failure? ==> r.error == ClientNotFound
    ensures r.Success? ==> r.value in clients.data.Values && r.value.username == username
  {
    var all, keys := clients.FindAll();
    var client := Find(all, (c: Client) => c.username == username);
    if client.None? {
      forall k | k in clients.data ensures clients.data[k].username != username {
        var j :| 0 <= j < |keys| && keys[j] == k;
      }
      return Failure(ClientNotFound);
    }
    var i :| 0 <= i < |all| && all[i] == client.value;
    assert clients.data[keys[i]] == client.value;
    return Success(client.value);
  }

  /** The password given matches the client's. */
  predicate PasswordMatches(client: Client, password: string)
  {
    client.password == password
  }

  /**
   * Logs in with `username` and `password`. With a matching client (the
   * ghost `client`, the one the lookup by username found) and the right
   * password a new session for that client, without reservations, is
   * stored under the fresh token `freshId`, and the token is the answer.
   * A wrong password is answered "invalid credentials" and stores nothing;
   * an unknown username writes no answer at all.
   */
  method Login(username: string, password: string, clients: ClientStore, sessions: SessionStore, freshId: Uuid)
    returns (out: seq<Response>, ghost client: Client?, ghost session: Session?)
    requires freshId !in sessions.data
    modifies sessions
    ensures !Registered(clients, username) ==> out == [] && sessions.data == old(sessions.data)
    ensures Registered(clients, username) ==>
      && client != null && client in clients.data.Values && client.username == username
      && (client.password != password ==> out == [Response(InvalidCredentials, NoData)] && sessions.data == old(sessions.data))
      && (client.password == password ==>
           && out == [Response("", Token(Text(freshId)))]
           && session != null && fresh(session)
           && session.id == freshId && session.clientId == client.id && session.reservations == map[]
           && sessions.data == old(sessions.data)[freshId := session])
  {
    var login := GetClient(clients, username);
    if login.Failure? {
      return [], null, null;
    }
    client := login.value;
    if !PasswordMatches(login.value, password) {
      return [Response(InvalidCredentials, NoData)], client, null;
    }
    var s := new Session(NilUuid, login.value.id);
    sessions.Insert(s, freshId);
    return [Response("", Token(Text(s.id)))], client, s;
  }

  /**
   * Ends the session with token `token`: the session stored under it is
   * deleted, by its own id, and the answer says so. An unknown token is
   * answered "session not found" and changes nothing.
   */
  method Logout(token: Uuid, sessions: SessionStore) returns (out: seq<Response>)
    modifies sessions
    ensures token !in old(sessions.data) ==> out == [Response(SessionNotFound, NoData)] && sessions.data == old(sessions.data)
    ensures token in old(sessions.data) ==>
      && out == [Response("", Message(LoggedOut))]
      && sessions.data == old(sessions.data) - {old(sessions.data[token].id)}
    ensures old(sessions.Keyed()) ==> token !in sessions.data && sessions.Keyed()
  {
    var session := sessions.FindById(token);
    if session.Failure? {
      return [Response(SessionNotFound, NoData)];
    }
    sessions.Delete(session.value);
    return [Response("", Message(LoggedOut))];
  }
}
