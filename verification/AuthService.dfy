/** The controller's authentication service over the session repository. */
module AuthService {
  import opened Models
  import opened SessionTable
  import SessionRepository

  datatype LoginRequest = LoginRequest(uid: string, pwd: string, component: int, settings: ConnectionSettings)

  /** The wire's component number; any other number panics. */
  function ComponentOf(n: int): Option<Component> {
    match n
    case 0 => Some(Controller)
    case 1 => Some(Proxy)
    case 2 => Some(Client)
    case _ => None
  }

  class AuthServiceImpl {
    const sessions: SessionRepository.InMemoryRepository
    const members: map<string, string>

    constructor (sessions: SessionRepository.InMemoryRepository, members: map<string, string>)
      ensures this.sessions == sessions && this.members == members
    {
      this.sessions, this.members := sessions, members;
    }

    predicate ValidCredentials(uid: string, pwd: string) {
      uid in members && members[uid] == pwd
    }

    /** A session is created exactly for a proxy or a client with valid credentials; `key` is the access key
        generated for it. An empty password is not refused as such. */
    method Login(request: LoginRequest, from: SocketAddr, key: string, now: int) returns (answer: Result<string>)
      requires sessions.Valid()
      modifies sessions
      ensures sessions.Valid()
      ensures answer.Ok? <==>
        request.uid != "" && request.component in {1, 2} && ValidCredentials(request.uid, request.pwd)
      ensures answer == Err(Unauthenticated) <==>
        request.uid != "" && request.component in {1, 2} && !ValidCredentials(request.uid, request.pwd)
      ensures answer == Err(InvalidArgument) <==> request.uid == "" || request.component == 0
      ensures answer == Err(Panic) <==> request.uid != "" && request.component !in {0, 1, 2}
      ensures answer.Err? ==> sessions.State() == old(sessions.State())
      ensures answer.Ok? ==>
        var component := if request.component == 1 then Proxy else Client;
        var info := SessionInfo(key, request.uid, from, component, request.settings);
        answer.value == key && sessions.State() == Set(old(sessions.State()), info, now)
    {
      if request.uid == "" {
        return Err(InvalidArgument);
      }
      var component := ComponentOf(request.component);
      if component.None? {
        return Err(Panic);
      }
      if component.value == Controller {
        return Err(InvalidArgument);
      }
      if !ValidCredentials(request.uid, request.pwd) {
        return Err(Unauthenticated);
      }
      sessions.SetSession(SessionInfo(key, request.uid, from, component.value, request.settings), now);
      answer := Ok(key);
    }

    /** The session is renewed before the address is compared: a ping from elsewhere is refused and still
        prolongs it. */
    method Ping(key: string, from: SocketAddr, now: int) returns (answer: Result<string>)
      requires sessions.Valid()
      modifies sessions
      ensures sessions.Valid() && sessions.State() == Renewed(old(sessions.State()), key, now)
      ensures answer.Ok? <==> key in old(sessions.sessions) && old(sessions.sessions)[key].value.clientIp == from
      ensures answer in {Ok("PONG"), Err(Unauthenticated)}
    {
      var checked := sessions.GetSession(key, now);
      if checked.None? {
        return Err(Unauthenticated);
      }
      RenewedTwice(old(sessions.State()), key, now);
      var session := sessions.GetSession(key, now);
      if session.value.clientIp != from {
        return Err(Unauthenticated);
      }
      answer := Ok("PONG");
    }

    method Logout(key: string, now: int) returns (answer: Result<string>)
      requires sessions.Valid()
      modifies sessions
      ensures sessions.Valid() && sessions.State() == Removed(old(sessions.State()), key)
      ensures answer.Ok? <==> key in old(sessions.sessions)
      ensures answer.Err? ==> answer == Err(Unauthenticated)
    {
      var checked := sessions.GetSession(key, now);
      if checked.None? {
        return Err(Unauthenticated);
      }
      RenewedThenRemoved(old(sessions.State()), key, now);
      sessions.RemoveSession(key);
      answer := Ok("");
    }
  }

  /** An expired session that no sweep has met yet is as good as new after a ping. */
  lemma {:induction false} PingRevives(t: Table, key: string, now: int, later: int)
    requires key in t.sessions && t.sessions[key].IsExpired(now)
    requires t.sessions[key].ttl == SESSIONS_EXPIRATION_TIME
    ensures key !in Swept(t, now).sessions
    ensures key in Swept(Renewed(t, key, now), later).sessions <==> later <= now + SESSIONS_EXPIRATION_TIME
  {
  }
}
