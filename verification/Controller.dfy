/** The controller's RPCs as single steps over its session and route tables. */
module Controller {
  import opened Models
  import SessionTable
  import RouteTable

  const CONTROLLER_UID := "controller_uid"
  const RANDOM_ROUTE_STRATEGY: nat := 1
  const ROUTES_BEFORE_FINAL: nat := 3

  datatype Tables = Tables(sessions: SessionTable.Table, routes: RouteTable.Table)

  const EMPTY := Tables(SessionTable.EMPTY, RouteTable.EMPTY)

  datatype RouteResponse = RouteResponse(settings: ConnectionSettings, nonce: string, endRoute: bool)

  // ----- Routing

  predicate HasReachedFinalRoute(conversation: Conversation) {
    |conversation.routes| == ROUTES_BEFORE_FINAL
  }

  /** The index is drawn from all but the last position; with a single proxy the draw is empty and gives 0. */
  predicate CanPick(proxies: seq<SessionInfo>, pick: nat) {
    pick < |proxies| - 1 || (|proxies| == 1 && pick == 0)
  }

  /** Some position can be drawn exactly when there is one. */
  lemma {:induction false} SomePick(proxies: seq<SessionInfo>)
    ensures (exists pick: nat :: CanPick(proxies, pick)) <==> proxies != []
  {
    if proxies != [] {
      assert CanPick(proxies, 0);
    }
  }

  /** Of several every one but the last can be drawn, and a single one too. */
  lemma {:induction false} DrawnFromAllButLast(proxies: seq<SessionInfo>, pick: nat)
    ensures CanPick(proxies, pick) <==> pick < |proxies| && (pick != |proxies| - 1 || |proxies| == 1)
  {
  }

  // ----- The RPCs

  /** What the environment decides during a route call: the order the proxy index is iterated in, the index
      drawn, and the nonce generated. */
  datatype Choice = Choice(order: seq<string>, pick: nat, nonce: string)

  function Target(to: string): string {
    if to == "" then CONTROLLER_UID else to
  }

  function CheckSession(c: Tables, key: string, now: int): Tables {
    c.(sessions := SessionTable.Renewed(c.sessions, key, now))
  }

  function Initialize(c: Tables, key: string, to: string, id: string, now: int): (Tables, Result<string>) {
    if key !in c.sessions.sessions then (c, Err(Unauthenticated))
    else
      var conversation :=
        Conversation(id, c.sessions.sessions[key].value.uid, Target(to), RANDOM_ROUTE_STRATEGY, []);
      (CheckSession(c, key, now).(routes := RouteTable.SetConversation(c.routes, conversation, now)),
       if id in c.routes.conversations then Err(Internal) else Ok(id))
  }

  /** The session a route call leads to, and whether it ends the route. */
  function NextHop(c: Tables, key: string, conversation: Conversation, choice: Choice): Option<SessionInfo> {
    if HasReachedFinalRoute(conversation) then SessionTable.ClientOf(c.sessions, conversation.to)
    else
      var proxies := SessionTable.ProxiesIn(c.sessions, key, choice.order);
      if CanPick(proxies, choice.pick) then Some(proxies[choice.pick]) else None
  }

  function RouteTo(hop: SessionInfo, choice: Choice, endRoute: bool): Route {
    Route(hop.settings, choice.nonce, endRoute)
  }

  function RouteCall(c: Tables, key: string, id: string, choice: Choice, now: int): (Tables, Result<RouteResponse>) {
    if key !in c.sessions.sessions then (c, Err(Unauthenticated))
    else
      var checked := CheckSession(c, key, now);
      if id !in c.routes.conversations then (checked, Err(NotFound))
      else
        var conversation := c.routes.conversations[id].value;
        var final := HasReachedFinalRoute(conversation);
        match NextHop(c, key, conversation, choice)
        case None => (checked, Err(NotFound))
        case Some(hop) =>
          var route := RouteTo(hop, choice, final);
          (checked.(routes := RouteTable.SetRoute(c.routes, id, route, now)),
           if RouteTable.SetRouteAnswer(c.routes, id, route).None? then Err(Internal)
           else Ok(RouteResponse(hop.settings, choice.nonce, final)))
  }

  /** The answer carries the sender's uid when the route redeemed ends its conversation. */
  function Redeem(c: Tables, key: string, id: string, nonce: string, now: int): (Tables, Result<Option<string>>) {
    if key !in c.sessions.sessions then (c, Err(Unauthenticated))
    else
      var checked := CheckSession(c, key, now);
      if id !in c.routes.conversations then (checked, Err(NotFound))
      else if nonce !in c.routes.routes then (checked, Err(Internal))
      else
        var redeemed := RouteTable.RemoveRoute(c.routes, nonce);
        if c.routes.routes[nonce].value.endRoute then
          (checked.(routes := RouteTable.RemoveConversation(redeemed, id)),
           Ok(Some(c.routes.conversations[id].value.from)))
        else (checked.(routes := redeemed), Ok(None))
  }

  /** Everything that can happen to the controller's state, each as one step. */
  datatype Call =
    | Initializing(key: string, to: string, id: string, now: int)
    | Routing(key: string, id: string, choice: Choice, now: int)
    | Redeeming(key: string, id: string, nonce: string, now: int)
    | OnSessions(op: SessionTable.Op)
    | SweepingRoutes(now: int)

  function Serve(c: Tables, call: Call): Tables {
    match call
    case Initializing(key, to, id, now) => Initialize(c, key, to, id, now).0
    case Routing(key, id, choice, now) => RouteCall(c, key, id, choice, now).0
    case Redeeming(key, id, nonce, now) => Redeem(c, key, id, nonce, now).0
    case OnSessions(op) => c.(sessions := SessionTable.Apply(c.sessions, op))
    case SweepingRoutes(now) => c.(routes := RouteTable.Swept(c.routes, now))
  }

  // ----- What each call does, as its caller and everybody else see it

  /** The caller of an RPC and the time of the call. */
  predicate CalledBy(call: Call, key: string, now: int) {
    match call
    case Initializing(k, _, _, at) => k == key && at == now
    case Routing(k, _, _, at) => k == key && at == now
    case Redeeming(k, _, _, at) => k == key && at == now
    case _ => false
  }

  /** Every RPC, whatever it answers, gives its caller's session 10000 ms more and touches no other session and no
      index; from an unknown caller it changes nothing. */
  lemma {:induction false} RpcRenewsCaller(c: Tables, call: Call, key: string, now: int, later: int)
    requires CalledBy(call, key, now)
    requires key in c.sessions.sessions ==> c.sessions.sessions[key].ttl == 10000
    ensures var t, t' := c.sessions, Serve(c, call).sessions;
      && (key in SessionTable.Swept(t', later).sessions <==> key in t.sessions && later <= now + 10000)
      && t'.sessions.Keys == t.sessions.Keys
      && (forall k :: k in t.sessions ==> t'.sessions[k].value == t.sessions[k].value)
      && (forall k :: k in t.sessions && k != key ==> t'.sessions[k] == t.sessions[k])
      && t'.clients == t.clients && t'.controllers == t.controllers && t'.proxies == t.proxies
    ensures key !in c.sessions.sessions ==> Serve(c, call) == c
  {
    var t, t' := c.sessions, Serve(c, call).sessions;
    assert t' == SessionTable.Renewed(t, key, now);
    if key in t.sessions {
      assert t'.sessions[key].expiresAt == now + 10000;
    }
  }

  /** The conversation opened is from the caller's uid to the recipient named, or to the controller when none is; it
      lasts 60000 ms, and nothing else is stored. Only an id already in use makes the call fail. */
  lemma {:induction false} InitializeStores(c: Tables, key: string, to: string, id: string, now: int, later: int)
    requires key in c.sessions.sessions
    ensures var (c', answer) := Initialize(c, key, to, id, now);
      && answer == (if id in c.routes.conversations then Err(Internal) else Ok(id))
      && c'.routes.routes == c.routes.routes
      && c'.routes.conversations - {id} == c.routes.conversations - {id}
      && id in c'.routes.conversations
      && var stored := c'.routes.conversations[id].value;
      && stored.id == id && stored.routes == []
      && stored.from == c.sessions.sessions[key].value.uid
      && (to != "" ==> stored.to == to)
      && (to == "" ==> stored.to == "controller_uid")
      && (id in RouteTable.Swept(c'.routes, later).conversations <==> later <= now + 60000)
  {
    var c' := Initialize(c, key, to, id, now).0;
    assert c'.routes.conversations[id].expiresAt == now + 60000;
  }

  /** A route answered leads to a stored session, of a client with the recipient's uid on the final route and of a
      proxy other than the asker's before; it is stored under its nonce for 60000 ms as answered and becomes the
      conversation's last route, and nothing else changes. */
  lemma {:induction false} RouteCallStores(c: Tables, key: string, id: string, choice: Choice, now: int, later: int,
                                           login: string -> SessionTable.Login) returns (hop: string)
    requires SessionTable.Sound(c.sessions, login) && Enumerates(choice.order, c.sessions.proxies.Keys)
    requires RouteCall(c, key, id, choice, now).1.Ok?
    ensures id in c.routes.conversations && hop in c.sessions.sessions
    ensures var routes, routes' := c.routes, RouteCall(c, key, id, choice, now).0.routes;
      var answer, talk := RouteCall(c, key, id, choice, now).1.value, routes.conversations[id].value;
      var session := c.sessions.sessions[hop].value;
      && answer.settings == session.settings
      && (answer.endRoute <==> |talk.routes| == 3)
      && (if answer.endRoute then session.component == Client && session.uid == talk.to
          else session.component == Proxy && hop != key)
      && answer.nonce == choice.nonce && choice.nonce !in routes.routes && choice.nonce in routes'.routes
      && routes'.routes[choice.nonce].value == Route(answer.settings, choice.nonce, answer.endRoute)
      && (choice.nonce in RouteTable.Swept(routes', later).routes <==> later <= now + 60000)
      && routes'.routes - {choice.nonce} == routes.routes
      && routes'.conversations.Keys == routes.conversations.Keys
      && routes'.conversations - {id} == routes.conversations - {id}
      && id in routes'.conversations
      && routes'.conversations[id].expiresAt == routes.conversations[id].expiresAt
      && routes'.conversations[id].value ==
        talk.(routes := talk.routes + [Route(answer.settings, choice.nonce, answer.endRoute)])
  {
    var talk := c.routes.conversations[id].value;
    NextHopRight(c, key, talk, choice, login);
    HopIsStored(c, key, talk, choice, login);
    hop := NextHop(c, key, talk, choice).value.accessKey;
    var routes' := RouteCall(c, key, id, choice, now).0.routes;
    assert routes'.routes[choice.nonce].expiresAt == now + 60000;
  }

  lemma {:induction false} HopIsStored(c: Tables, key: string, conversation: Conversation, choice: Choice,
                                       login: string -> SessionTable.Login)
    requires SessionTable.Sound(c.sessions, login)
    ensures var hop := NextHop(c, key, conversation, choice);
      hop.Some? ==> SessionTable.Lookup(c.sessions, hop.value.accessKey) == hop
  {
    ListedAreStored(c.sessions, key, choice.order);
  }

  lemma {:induction false} ListedAreStored(t: SessionTable.Table, key: string, order: seq<string>)
    requires SessionTable.Keyed(t)
    ensures forall x :: x in SessionTable.ProxiesIn(t, key, order) ==>
      x.accessKey in t.sessions && t.sessions[x.accessKey].value == x
    decreases |order|
  {
    if order != [] {
      ListedAreStored(t, key, order[..|order| - 1]);
    }
  }

  /** A redemption by a known caller succeeds if and only if the conversation and the nonce are there; then exactly
      that nonce goes, and on an end route the conversation with it, whose sender is told. */
  lemma {:induction false} RedeemTakes(c: Tables, key: string, id: string, nonce: string, now: int)
    requires key in c.sessions.sessions
    ensures var (c', answer) := Redeem(c, key, id, nonce, now);
      && (answer.Ok? <==> id in c.routes.conversations && nonce in c.routes.routes)
      && (answer.Err? ==> c'.routes == c.routes)
      && (answer.Ok? ==>
          && c'.routes.routes == c.routes.routes - {nonce}
          && c'.routes.conversations - {id} == c.routes.conversations - {id}
          && if c.routes.routes[nonce].value.endRoute
             then id !in c'.routes.conversations && answer.value == Some(c.routes.conversations[id].value.from)
             else c'.routes.conversations == c.routes.conversations && answer.value == None)
  {
    assert c.routes.conversations - {id} - {id} == c.routes.conversations - {id};
  }

  /** Why the RPCs refuse: an unknown caller first, then an unknown conversation or nobody to route to, then a nonce
      that is not there to redeem, or an id or a nonce that is there already. */
  lemma {:induction false} Refusals(c: Tables, key: string, to: string, id: string, nonce: string, choice: Choice,
                                    now: int)
    ensures var begun := Initialize(c, key, to, id, now).1;
      && (begun == Err(Unauthenticated) <==> key !in c.sessions.sessions)
      && (begun == Err(Internal) <==> key in c.sessions.sessions && id in c.routes.conversations)
    ensures var routed := RouteCall(c, key, id, choice, now).1;
      && (routed == Err(Unauthenticated) <==> key !in c.sessions.sessions)
      && (routed == Err(NotFound) <==>
          && key in c.sessions.sessions
          && (id !in c.routes.conversations || NextHop(c, key, c.routes.conversations[id].value, choice).None?))
      && (routed.Err? && routed.status !in {Unauthenticated, NotFound} ==>
          routed.status == Internal && choice.nonce in c.routes.routes)
    ensures var redeemed := Redeem(c, key, id, nonce, now).1;
      && (redeemed == Err(Unauthenticated) <==> key !in c.sessions.sessions)
      && (redeemed == Err(NotFound) <==> key in c.sessions.sessions && id !in c.routes.conversations)
      && (redeemed == Err(Internal) <==>
          key in c.sessions.sessions && id in c.routes.conversations && nonce !in c.routes.routes)
  {
  }

  // ----- What every sequence of calls keeps

  /** Conversations are stored under their id, by the one strategy, and their fourth route, only, ends them. */
  ghost predicate ConversationRight(id: string, conversation: Conversation) {
    && conversation.id == id
    && conversation.routingId == RANDOM_ROUTE_STRATEGY
    && forall i :: 0 <= i < |conversation.routes| ==>
      (conversation.routes[i].endRoute <==> i == ROUTES_BEFORE_FINAL)
  }

  ghost predicate RoutesRight(t: RouteTable.Table) {
    && (forall id :: id in t.conversations ==> ConversationRight(id, t.conversations[id].value))
    && (forall n :: n in t.routes ==> t.routes[n].value.nonce == n)
  }

  lemma {:induction false} SetRouteRight(t: RouteTable.Table, id: string, route: Route, now: int)
    requires RoutesRight(t)
    requires id in t.conversations && (route.endRoute <==> HasReachedFinalRoute(t.conversations[id].value))
    ensures RoutesRight(RouteTable.SetRoute(t, id, route, now))
  {
    assert ConversationRight(id, t.conversations[id].value);
    var t' := RouteTable.SetRoute(t, id, route, now);
    forall other | other in t'.conversations ensures ConversationRight(other, t'.conversations[other].value) {
      assert ConversationRight(other, t.conversations[other].value);
    }
  }

  lemma {:induction false} ServeRight(c: Tables, call: Call)
    requires RoutesRight(c.routes)
    ensures RoutesRight(Serve(c, call).routes)
  {
    match call
    case Routing(key, id, choice, now) =>
      if key in c.sessions.sessions && id in c.routes.conversations {
        var conversation := c.routes.conversations[id].value;
        var hop := NextHop(c, key, conversation, choice);
        if hop.Some? {
          SetRouteRight(c.routes, id, RouteTo(hop.value, choice, HasReachedFinalRoute(conversation)), now);
        }
      }
    case _ =>
  }

  function ServeAll(c: Tables, calls: seq<Call>): Tables
    decreases |calls|
  {
    if calls == [] then c else ServeAll(Serve(c, calls[0]), calls[1..])
  }

  lemma {:induction false} ServeAllRight(c: Tables, calls: seq<Call>)
    requires RoutesRight(c.routes)
    ensures RoutesRight(ServeAll(c, calls).routes)
    decreases |calls|
  {
    if calls != [] {
      ServeRight(c, calls[0]);
      ServeAllRight(Serve(c, calls[0]), calls[1..]);
    }
  }

  /** Whoever calls what, in any order: in every conversation of any length a route ends it exactly at position
      3, so two of its routes never both do. */
  lemma {:induction false} EndRouteOnlyFourth(calls: seq<Call>, id: string, i: nat, j: nat)
    requires id in ServeAll(EMPTY, calls).routes.conversations
    requires i < |ServeAll(EMPTY, calls).routes.conversations[id].value.routes|
    requires j < |ServeAll(EMPTY, calls).routes.conversations[id].value.routes|
    ensures var routes := ServeAll(EMPTY, calls).routes.conversations[id].value.routes;
      && (routes[i].endRoute <==> i == 3)
      && (routes[i].endRoute && routes[j].endRoute ==> i == j)
  {
    ServeAllRight(EMPTY, calls);
    assert ConversationRight(id, ServeAll(EMPTY, calls).routes.conversations[id].value);
  }

  ghost predicate PastFinal(c: Tables, id: string) {
    id in c.routes.conversations ==> |c.routes.conversations[id].value.routes| > ROUTES_BEFORE_FINAL
  }

  /** The test for the final route is for equality: a conversation that went past it is never led to its
      recipient any more, however often a route is asked for. */
  lemma {:induction false} NeverFinalAgain(c: Tables, calls: seq<Call>, id: string)
    requires PastFinal(c, id)
    requires forall call :: call in calls ==> !(call.Initializing? && call.id == id)
    ensures var c' := ServeAll(c, calls);
      id in c'.routes.conversations ==> !HasReachedFinalRoute(c'.routes.conversations[id].value)
    decreases |calls|
  {
    if calls != [] {
      assert calls[0] in calls;
      StaysPastFinal(c, calls[0], id);
      NeverFinalAgain(Serve(c, calls[0]), calls[1..], id);
    }
  }

  lemma {:induction false} StaysPastFinal(c: Tables, call: Call, id: string)
    requires PastFinal(c, id) && !(call.Initializing? && call.id == id)
    ensures PastFinal(Serve(c, call), id)
  {
  }

  // ----- Whom a route call leads to

  lemma {:induction false} NextHopRight(c: Tables, key: string, conversation: Conversation, choice: Choice,
                                        login: string -> SessionTable.Login)
    requires SessionTable.Sound(c.sessions, login)
    requires Enumerates(choice.order, c.sessions.proxies.Keys)
    ensures var hop := NextHop(c, key, conversation, choice);
      hop.Some? ==>
        if HasReachedFinalRoute(conversation)
        then hop.value.component == Client && hop.value.uid == conversation.to
        else hop.value.component == Proxy && hop.value.accessKey != key
  {
    if HasReachedFinalRoute(conversation) {
      SessionTable.SoundClient(c.sessions, conversation.to, login);
    } else {
      SessionTable.SoundProxiesIn(c.sessions, key, choice.order, login);
    }
  }

  /** A route call that passed its checks fails only for want of a client or of a proxy other than the asker:
      "Next route wasn't found" is never the answer, and a fresh nonce is always stored. */
  lemma {:induction false} RouteCallFailsIff(c: Tables, key: string, id: string, choice: Choice, now: int)
    requires key in c.sessions.sessions && id in c.routes.conversations
    requires choice.nonce !in c.routes.routes
    requires var conversation := c.routes.conversations[id].value;
      var proxies := SessionTable.ProxiesIn(c.sessions, key, choice.order);
      !HasReachedFinalRoute(conversation) && proxies != [] ==> CanPick(proxies, choice.pick)
    ensures var conversation := c.routes.conversations[id].value;
      RouteCall(c, key, id, choice, now).1.Err? <==>
        if HasReachedFinalRoute(conversation)
        then SessionTable.ClientOf(c.sessions, conversation.to).None?
        else SessionTable.ProxiesIn(c.sessions, key, choice.order) == []
  {
  }
}
