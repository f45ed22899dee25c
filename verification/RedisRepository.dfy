/** The Redis route repository over a key-value store of texts and hashes whose keys expire. */
module RedisRepository {
  import opened Models
  import RouteTable

  const CONVERSATIONS_KEY := "cs"
  const ROUTES_KEY := "rs"

  function ConversationKey(id: string): string {
    CONVERSATIONS_KEY + ":" + id
  }

  function RoutesKey(id: string): string {
    ROUTES_KEY + ":" + id
  }

  /** The two key families never meet, and each names its id. */
  lemma {:induction false} KeysApart(a: string, b: string)
    ensures ConversationKey(a) == "cs:" + a && RoutesKey(a) == "rs:" + a
    ensures ConversationKey(a) != RoutesKey(b)
    ensures ConversationKey(a) == ConversationKey(b) <==> a == b
    ensures RoutesKey(a) == RoutesKey(b) <==> a == b
  {
    assert ConversationKey(a)[0] == 'c' && RoutesKey(b)[0] == 'r';
    assert ConversationKey(a)[3..] == a && ConversationKey(b)[3..] == b;
    assert RoutesKey(a)[3..] == a && RoutesKey(b)[3..] == b;
  }

  datatype Value = Text(conversation: Conversation) | Hash(routes: map<string, Route>)

  /** Every key the repository writes has a deadline. */
  type Store = map<string, Expiring<Value>>

  /** Deadlines are given in whole seconds. */
  function TtlOf(milliseconds: nat): nat {
    milliseconds / 1000 * 1000
  }

  const CONVERSATION_TTL: nat := TtlOf(RouteTable.CONVERSATIONS_EXPIRATION_TIME)
  const ROUTES_TTL: nat := TtlOf(RouteTable.ROUTES_EXPIRATION_TIME)

  /** What is left of the store when a command arrives. */
  function Elapsed(store: Store, now: int): Store {
    RouteTable.Unexpired(store, now)
  }

  /** A conversation key only holds texts, a routes key only hashes. */
  ghost predicate Typed(store: Store) {
    forall id ::
      && (ConversationKey(id) in store ==> store[ConversationKey(id)].value.Text?)
      && (RoutesKey(id) in store ==> store[RoutesKey(id)].value.Hash?)
  }

  function ConversationAt(store: Store, id: string): Option<Conversation> {
    var key := ConversationKey(id);
    if key in store && store[key].value.Text? then Some(store[key].value.conversation) else None
  }

  /** The hash of a conversation's routes; an absent key reads as the empty hash. */
  function RoutesAt(store: Store, id: string): map<string, Route> {
    var key := RoutesKey(id);
    if key in store && store[key].value.Hash? then store[key].value.routes else map[]
  }

  function RouteAt(store: Store, id: string, nonce: string): Option<Route> {
    if nonce in RoutesAt(store, id) then Some(RoutesAt(store, id)[nonce]) else None
  }

  function WithConversation(store: Store, conversation: Conversation, now: int): Store {
    store[ConversationKey(conversation.id) := Wrap(Text(conversation), CONVERSATION_TTL, now)]
  }

  /** Both the hash and the conversation start a new term. */
  function WithRoute(store: Store, id: string, conversation: Conversation, route: Route, now: int): Store {
    var longer := conversation.(routes := conversation.routes + [route]);
    store[RoutesKey(id) := Wrap(Hash(RoutesAt(store, id)[route.nonce := route]), ROUTES_TTL, now)]
         [ConversationKey(id) := Wrap(Text(longer), CONVERSATION_TTL, now)]
  }

  /** HDEL: an emptied hash disappears with its key; otherwise its deadline stays. */
  function WithoutField(store: Store, key: string, field: string): Store {
    if key !in store || !store[key].value.Hash? then store
    else if store[key].value.routes - {field} == map[] then store - {key}
    else store[key := store[key].(value := Hash(store[key].value.routes - {field}))]
  }

  class RedisRepository {
    var connection: Store

    ghost predicate Valid()
      reads this
    {
      Typed(connection)
    }

    constructor ()
      ensures Valid() && connection == map[]
    {
      connection := map[];
    }

    method SetConversation(conversation: Conversation, now: int) returns (id: Option<string>)
      requires Valid()
      modifies this
      ensures Valid() && connection == WithConversation(Elapsed(old(connection), now), conversation, now)
      ensures id == Some(conversation.id)
    {
      forall other ensures ConversationKey(conversation.id) != RoutesKey(other) {
        KeysApart(conversation.id, other);
      }
      connection := Elapsed(connection, now);
      connection := connection[ConversationKey(conversation.id) := Wrap(Text(conversation), CONVERSATION_TTL, now)];
      id := Some(conversation.id);
    }

    method RemoveConversation(id: string, now: int)
      requires Valid()
      modifies this
      ensures Valid() && connection == Elapsed(old(connection), now) - {ConversationKey(id)}
    {
      connection := Elapsed(connection, now);
      connection := connection - {ConversationKey(id)};
    }

    method GetConversation(id: string, now: int) returns (found: Option<Conversation>)
      requires Valid()
      ensures found == ConversationAt(Elapsed(connection, now), id)
    {
      var key := ConversationKey(id);
      found := None;
      if key in connection && !connection[key].IsExpired(now) {
        found := Some(connection[key].value.conversation);
      }
    }

    /** Reading a missing conversation fails the unwrap before anything is written. */
    method SetRoute(id: string, route: Route, now: int) returns (nonce: Result<Option<string>>)
      requires Valid()
      modifies this
      ensures Valid()
      ensures var s := Elapsed(old(connection), now);
        match ConversationAt(s, id)
        case None => nonce == Err(Panic) && connection == s
        case Some(c) => nonce == Ok(Some(route.nonce)) && connection == WithRoute(s, id, c, route, now)
    {
      var found := GetConversation(id, now);
      connection := Elapsed(connection, now);
      if found.None? {
        return Err(Panic);
      }
      var conversation := found.value.(routes := found.value.routes + [route]);
      forall other ensures ConversationKey(id) != RoutesKey(other) && ConversationKey(other) != RoutesKey(id) {
        KeysApart(id, other);
        KeysApart(other, id);
      }
      var key := RoutesKey(id);
      var hash := if key in connection then connection[key].value.routes else map[];
      connection := connection[key := Wrap(Hash(hash[route.nonce := route]), ROUTES_TTL, now)];
      connection := connection[ConversationKey(id) := Wrap(Text(conversation), CONVERSATION_TTL, now)];
      nonce := Ok(Some(route.nonce));
    }

    method GetRoute(id: string, nonce: string, now: int) returns (found: Option<Route>)
      requires Valid()
      ensures found == RouteAt(Elapsed(connection, now), id, nonce)
    {
      var key := RoutesKey(id);
      found := None;
      if key in connection && !connection[key].IsExpired(now) {
        var hash := connection[key].value.routes;
        found := if nonce in hash then Some(hash[nonce]) else None;
      }
    }

    /** The hash is named after the nonce, not after the conversation. */
    method RemoveRoute(nonce: string, now: int)
      requires Valid()
      modifies this
      ensures Valid() && connection == WithoutField(Elapsed(old(connection), now), RoutesKey(nonce), nonce)
    {
      forall other ensures ConversationKey(other) != RoutesKey(nonce) {
        KeysApart(other, nonce);
      }
      connection := Elapsed(connection, now);
      var key := RoutesKey(nonce);
      if key in connection {
        var rest := connection[key].value.routes - {nonce};
        if rest == map[] {
          connection := connection - {key};
        } else {
          connection := connection[key := connection[key].(value := Hash(rest))];
        }
      }
    }
  }
}
