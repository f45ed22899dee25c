/** The controller's route service: each RPC checks, reads and then changes the two repositories in turn. */
module RouteService {
  import opened Models
  import SessionTable
  import RouteTable
  import SessionRepository
  import RouteRepository
  import opened Controller

  class RouteServiceImpl {
    const sessions: SessionRepository.InMemoryRepository
    const routes: RouteRepository.InMemoryRepository

    constructor (sessions: SessionRepository.InMemoryRepository, routes: RouteRepository.InMemoryRepository)
      ensures this.sessions == sessions && this.routes == routes
    {
      this.sessions := sessions;
      this.routes := routes;
    }

    function State(): Tables
      reads sessions, routes
    {
      Tables(sessions.State(), routes.State())
    }

    ghost predicate Valid()
      reads sessions, routes
    {
      sessions.Valid() && RoutesRight(routes.State())
    }

    /** `id` is the conversation id generated for this call. */
    method Initialize(key: string, to: string, id: string, now: int) returns (answer: Result<string>)
      requires Valid()
      modifies sessions, routes
      ensures Valid()
      ensures (State(), answer) == Controller.Initialize(old(State()), key, to, id, now)
    {
      ServeRight(State(), Initializing(key, to, id, now));
      var checked := sessions.GetSession(key, now);
      if checked.None? {
        return Err(Unauthenticated);
      }
      var session := sessions.GetSession(key, now);
      SessionTable.RenewedTwice(old(State()).sessions, key, now);
      var target := if to == "" then CONTROLLER_UID else to;
      var conversation := Conversation(id, session.value.uid, target, RANDOM_ROUTE_STRATEGY, []);
      var stored := routes.SetConversation(conversation, now);
      if stored.None? {
        return Err(Internal);
      }
      answer := Ok(stored.value);
    }

    /** The proxies may be listed in any order, and any index that can be drawn may be. */
    method Route(key: string, id: string, nonce: string, now: int)
      returns (answer: Result<RouteResponse>, ghost choice: Choice)
      requires Valid()
      modifies sessions, routes
      ensures Valid()
      ensures choice.nonce == nonce && Enumerates(choice.order, old(State()).sessions.proxies.Keys)
      ensures (State(), answer) == Controller.RouteCall(old(State()), key, id, choice, now)
    {
      ghost var start := State();
      ghost var order := EnumerationExists(start.sessions.proxies.Keys);
      choice := Choice(order, 0, nonce);
      var checked := sessions.GetSession(key, now);
      if checked.None? {
        return Err(Unauthenticated), choice;
      }
      var found := routes.GetConversation(id);
      if found.None? {
        return Err(NotFound), choice;
      }
      found := routes.GetConversation(id);
      var conversation := found.value;
      assert ConversationRight(id, conversation);
      var final := CheckForFinalRoute(conversation);
      if final {
        var client := sessions.GetClient(conversation.to);
        RenewedKeepsAnswers(start.sessions, key, now, conversation.to, choice.order);
        if client.Some? {
          SetRouteRight(routes.State(), id, Models.Route(client.value.settings, nonce, true), now);
          answer := HandleRoute(id, client.value, nonce, true, now);
          return answer, choice;
        }
        return Err(NotFound), choice;
      }
      var proxies := sessions.GetProxies(key);
      order :| Enumerates(order, sessions.State().proxies.Keys) &&
        proxies == SessionTable.NoneIfEmpty(SessionTable.ProxiesIn(sessions.State(), key, order));
      RenewedKeepsAnswers(start.sessions, key, now, conversation.to, order);
      choice := Choice(order, 0, nonce);
      if proxies.None? {
        return Err(NotFound), choice;
      }
      var proxy, pick := GetNextRoute(conversation, proxies.value);
      choice := Choice(order, pick, nonce);
      assert NextHop(start, key, conversation, choice) == Some(proxy);
      SetRouteRight(routes.State(), id, Models.Route(proxy.settings, nonce, false), now);
      answer := HandleRoute(id, proxy, nonce, false, now);
    }

    /** Fails on a nonce already stored, and on a conversation that is gone by then; the route is stored anyway. */
    method HandleRoute(id: string, session: SessionInfo, nonce: string, endRoute: bool, now: int)
      returns (answer: Result<RouteResponse>)
      modifies routes
      ensures var route := Models.Route(session.settings, nonce, endRoute);
        routes.State() == RouteTable.SetRoute(old(routes.State()), id, route, now)
      ensures answer ==
        if nonce in old(routes.routes) || id !in old(routes.conversations) then Err(Internal)
        else Ok(RouteResponse(session.settings, nonce, endRoute))
    {
      var route := Models.Route(session.settings, nonce, endRoute);
      var stored := routes.SetRoute(id, route, now);
      if stored.None? {
        return Err(Internal);
      }
      answer := Ok(RouteResponse(session.settings, stored.value, endRoute));
    }

    method Redeem(key: string, id: string, nonce: string, now: int) returns (answer: Result<Option<string>>)
      requires Valid()
      modifies sessions, routes
      ensures Valid()
      ensures (State(), answer) == Controller.Redeem(old(State()), key, id, nonce, now)
    {
      ServeRight(State(), Redeeming(key, id, nonce, now));
      var checked := sessions.GetSession(key, now);
      if checked.None? {
        return Err(Unauthenticated);
      }
      var found := routes.GetConversation(id);
      if found.None? {
        return Err(NotFound);
      }
      var route := RedeemRoute(id, nonce);
      if route.None? {
        assert routes.routes == old(routes.routes);
        return Err(Internal);
      }
      var source: Option<string> := None;
      if route.value.endRoute {
        var conversation := routes.GetConversation(id);
        source := Some(conversation.value.from);
        routes.RemoveConversation(id);
      }
      answer := Ok(source);
    }

    method RedeemRoute(id: string, nonce: string) returns (route: Option<Models.Route>)
      modifies routes`routes
      ensures route == RouteTable.Lookup(old(routes.routes), nonce)
      ensures routes.State() == RouteTable.RemoveRoute(old(routes.State()), nonce)
    {
      route := routes.GetRoute(id, nonce);
      if route.Some? {
        routes.RemoveRoute(nonce);
      }
    }
  }

  /** Looking up the conversation's strategy must succeed before it is asked. */
  method CheckForFinalRoute(conversation: Conversation) returns (final: bool)
    requires conversation.routingId == RANDOM_ROUTE_STRATEGY
    ensures final == HasReachedFinalRoute(conversation)
  {
    final := |conversation.routes| == 3;
  }

  /** Counting the positions before the last underflows on an empty list. */
  method GetNextRoute(conversation: Conversation, proxies: seq<SessionInfo>)
    returns (next: SessionInfo, ghost pick: nat)
    requires conversation.routingId == RANDOM_ROUTE_STRATEGY
    requires proxies != []
    ensures CanPick(proxies, pick) && next == proxies[pick]
    ensures next in if |proxies| == 1 then proxies else proxies[..|proxies| - 1]
  {
    var positions := |proxies| - 1;
    var index := 0;
    if positions > 0 {
      index :| 0 <= index < positions;
    }
    next := proxies[index];
    pick := index;
  }

  /** Renewing the asker's session changes none of the session values that are looked up next. */
  lemma {:induction false} RenewedKeepsAnswers(t: SessionTable.Table, key: string, now: int, uid: string,
                                               order: seq<string>)
    ensures SessionTable.ClientOf(SessionTable.Renewed(t, key, now), uid) == SessionTable.ClientOf(t, uid)
    ensures SessionTable.ProxiesIn(SessionTable.Renewed(t, key, now), key, order) ==
      SessionTable.ProxiesIn(t, key, order)
    decreases |order|
  {
    if order != [] {
      RenewedKeepsAnswers(t, key, now, uid, order[..|order| - 1]);
    }
  }
}
