/** The in-memory route repository: two maps updated in place. */
module RouteRepository {
  import opened Models
  import opened RouteTable

  class InMemoryRepository {
    var routes: map<string, Expiring<Route>>
    var conversations: map<string, Expiring<Conversation>>

    function State(): Table
      reads this
    {
      Table(routes, conversations)
    }

    constructor ()
      ensures State() == EMPTY
    {
      routes, conversations := map[], map[];
    }

    method SetConversation(conversation: Conversation, now: int) returns (id: Option<string>)
      modifies this`conversations
      ensures State() == RouteTable.SetConversation(old(State()), conversation, now)
      ensures id == if conversation.id in old(conversations) then None else Some(conversation.id)
    {
      var found := conversation.id in conversations;
      conversations := conversations[conversation.id := Wrap(conversation, CONVERSATIONS_EXPIRATION_TIME, now)];
      id := if found then None else Some(conversation.id);
    }

    method RemoveConversation(id: string)
      modifies this`conversations
      ensures State() == RouteTable.RemoveConversation(old(State()), id)
    {
      conversations := conversations - {id};
    }

    method GetConversation(id: string) returns (found: Option<Conversation>)
      ensures found == Lookup(State().conversations, id)
    {
      found := if id in conversations then Some(conversations[id].value) else None;
    }

    method SetRoute(id: string, route: Route, now: int) returns (nonce: Option<string>)
      modifies this
      ensures State() == RouteTable.SetRoute(old(State()), id, route, now)
      ensures nonce == SetRouteAnswer(old(State()), id, route)
    {
      var replaced := route.nonce in routes;
      routes := routes[route.nonce := Wrap(route, ROUTES_EXPIRATION_TIME, now)];
      if replaced {
        return None;
      }
      if id !in conversations {
        return None;
      }
      var wrapper := conversations[id];
      conversations := conversations[id := wrapper.(value := wrapper.value.(routes := wrapper.value.routes + [route]))];
      nonce := Some(route.nonce);
    }

    /** The conversation id is not looked at. */
    method GetRoute(id: string, nonce: string) returns (found: Option<Route>)
      ensures found == Lookup(State().routes, nonce)
    {
      found := if nonce in routes then Some(routes[nonce].value) else None;
    }

    method RemoveRoute(nonce: string)
      modifies this`routes
      ensures State() == RouteTable.RemoveRoute(old(State()), nonce)
    {
      routes := routes - {nonce};
    }

    /** One pass of the sweeper: both maps retain what has not expired. */
    method KillExpired(now: int)
      modifies this
      ensures State() == Swept(old(State()), now)
    {
      routes := Unexpired(routes, now);
      conversations := Unexpired(conversations, now);
    }
  }
}
