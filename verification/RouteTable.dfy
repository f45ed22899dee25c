/** The controller's route table: stored routes by nonce, and conversations by id. */
module RouteTable {
  import opened Models

  const ROUTES_EXPIRATION_TIME: nat := 60000
  const CONVERSATIONS_EXPIRATION_TIME: nat := 60000

  datatype Table = Table(
    routes: map<string, Expiring<Route>>,
    conversations: map<string, Expiring<Conversation>>)

  const EMPTY := Table(map[], map[])

  function Lookup<T>(m: map<string, Expiring<T>>, key: string): Option<T> {
    if key in m then Some(m[key].value) else None
  }

  function SetConversation(t: Table, conversation: Conversation, now: int): Table {
    t.(conversations := t.conversations[conversation.id := Wrap(conversation, CONVERSATIONS_EXPIRATION_TIME, now)])
  }

  function RemoveConversation(t: Table, id: string): Table {
    t.(conversations := t.conversations - {id})
  }

  function Pushed(wrapper: Expiring<Conversation>, route: Route): Expiring<Conversation> {
    wrapper.(value := wrapper.value.(routes := wrapper.value.routes + [route]))
  }

  /** The route is stored even when its nonce or its conversation makes the answer None; the conversation's
      deadline is not renewed. */
  function SetRoute(t: Table, id: string, route: Route, now: int): Table {
    var stored := t.(routes := t.routes[route.nonce := Wrap(route, ROUTES_EXPIRATION_TIME, now)]);
    if route.nonce !in t.routes && id in t.conversations then
      stored.(conversations := t.conversations[id := Pushed(t.conversations[id], route)])
    else stored
  }

  function SetRouteAnswer(t: Table, id: string, route: Route): Option<string> {
    if route.nonce !in t.routes && id in t.conversations then Some(route.nonce) else None
  }

  function RemoveRoute(t: Table, nonce: string): Table {
    t.(routes := t.routes - {nonce})
  }

  function Unexpired<T>(m: map<string, Expiring<T>>, now: int): (kept: map<string, Expiring<T>>)
    ensures forall k :: k in kept <==> k in m && !m[k].IsExpired(now)
    ensures forall k :: k in kept ==> kept[k] == m[k]
  {
    map k | k in m && !m[k].IsExpired(now) :: m[k]
  }

  function Swept(t: Table, now: int): Table {
    Table(Unexpired(t.routes, now), Unexpired(t.conversations, now))
  }

  // ----- What each operation does, entry by entry

  /** A conversation set is found as set, through every sweep of the next 60000 ms, also over an old one of its id. */
  lemma {:induction false} SetConversationExact(t: Table, conversation: Conversation, now: int, later: int)
    ensures var t' := SetConversation(t, conversation, now);
      && Lookup(t'.conversations, conversation.id) == Some(conversation)
      && (conversation.id in Swept(t', later).conversations <==> later <= now + 60000)
      && t'.conversations - {conversation.id} == t.conversations - {conversation.id}
      && t'.routes == t.routes
  {
    var t' := SetConversation(t, conversation, now);
    assert t'.conversations[conversation.id].expiresAt == now + 60000;
  }

  /** A route is found as stored, through every sweep of the next 60000 ms, also when its nonce was taken or its
      conversation is missing. It becomes the last of its conversation, whose deadline stays, exactly when neither is
      the case, and only then its nonce is answered. */
  lemma {:induction false} SetRouteExact(t: Table, id: string, route: Route, now: int, later: int)
    ensures var t' := SetRoute(t, id, route, now);
      && Lookup(t'.routes, route.nonce) == Some(route)
      && (route.nonce in Swept(t', later).routes <==> later <= now + 60000)
      && t'.routes - {route.nonce} == t.routes - {route.nonce}
      && t'.conversations - {id} == t.conversations - {id}
      && (SetRouteAnswer(t, id, route) == Some(route.nonce) <==> id in t.conversations && route.nonce !in t.routes)
      && (SetRouteAnswer(t, id, route) == None <==> id !in t.conversations || route.nonce in t.routes)
      && (SetRouteAnswer(t, id, route).None? ==> t'.conversations == t.conversations)
      && (SetRouteAnswer(t, id, route).Some? ==>
          && id in t'.conversations
          && t'.conversations[id].expiresAt == t.conversations[id].expiresAt
          && var before := t.conversations[id].value;
             t'.conversations[id].value == before.(routes := before.routes + [route]))
  {
    var t' := SetRoute(t, id, route, now);
    assert t'.routes[route.nonce].expiresAt == now + 60000;
  }

  /** What is removed is gone and nothing else is. */
  lemma {:induction false} RemovalsExact(t: Table, id: string, nonce: string)
    ensures var t' := RemoveConversation(t, id);
      id !in t'.conversations && t'.conversations == t.conversations - {id} && t'.routes == t.routes
    ensures var t' := RemoveRoute(t, nonce);
      nonce !in t'.routes && t'.routes == t.routes - {nonce} && t'.conversations == t.conversations
  {
  }

  /** A sweep keeps exactly the routes and conversations whose deadline has not passed. */
  lemma {:induction false} SweepExact(t: Table, now: int)
    ensures var t' := Swept(t, now);
      && (forall n :: n in t'.routes <==> n in t.routes && now <= t.routes[n].expiresAt)
      && (forall n :: n in t'.routes ==> t'.routes[n] == t.routes[n])
      && (forall id :: id in t'.conversations <==> id in t.conversations && now <= t.conversations[id].expiresAt)
      && (forall id :: id in t'.conversations ==> t'.conversations[id] == t.conversations[id])
  {
  }
}
