/** The two route repositories against each other: exactly which calls they answer alike. */
module BackendSimulation {
  import opened Models
  import RouteTable
  import opened RedisRepository

  datatype Op =
    | SetConversation(conversation: Conversation)
    | RemoveConversation(id: string)
    | GetConversation(id: string)
    | SetRoute(id: string, route: Route)
    | GetRoute(id: string, nonce: string)
    | RemoveRoute(nonce: string)
    | Sweep                             // of the in-memory repository; Redis expires keys by itself

  datatype Timed = Timed(op: Op, at: int)

  datatype Answer =
    | Name(name: Option<string>)
    | Talk(talk: Option<Conversation>)
    | Hop(hop: Option<Route>)
    | Unit
    | Crash

  function MemoryNext(t: RouteTable.Table, op: Op, now: int): RouteTable.Table {
    match op
    case SetConversation(conversation) => RouteTable.SetConversation(t, conversation, now)
    case RemoveConversation(id) => RouteTable.RemoveConversation(t, id)
    case SetRoute(id, route) => RouteTable.SetRoute(t, id, route, now)
    case RemoveRoute(nonce) => RouteTable.RemoveRoute(t, nonce)
    case Sweep => RouteTable.Swept(t, now)
    case _ => t
  }

  function MemoryAnswer(t: RouteTable.Table, op: Op): Answer {
    match op
    case SetConversation(conversation) =>
      Name(if conversation.id in t.conversations then None else Some(conversation.id))
    case GetConversation(id) => Talk(RouteTable.Lookup(t.conversations, id))
    case SetRoute(id, route) => Name(RouteTable.SetRouteAnswer(t, id, route))
    case GetRoute(id, nonce) => Hop(RouteTable.Lookup(t.routes, nonce))
    case _ => Unit
  }

  /** From the store as it is left when the command arrives. */
  function RedisNext(s: Store, op: Op, now: int): Store {
    match op
    case SetConversation(conversation) => WithConversation(s, conversation, now)
    case RemoveConversation(id) => s - {ConversationKey(id)}
    case SetRoute(id, route) =>
      (match ConversationAt(s, id)
       case None => s
       case Some(conversation) => WithRoute(s, id, conversation, route, now))
    case RemoveRoute(nonce) => WithoutField(s, RoutesKey(nonce), nonce)
    case _ => s
  }

  function RedisAnswer(s: Store, op: Op): Answer {
    match op
    case SetConversation(conversation) => Name(Some(conversation.id))
    case GetConversation(id) => Talk(ConversationAt(s, id))
    case SetRoute(id, route) => if ConversationAt(s, id).None? then Crash else Name(Some(route.nonce))
    case GetRoute(id, nonce) => Hop(RouteAt(s, id, nonce))
    case _ => Unit
  }

  // ----- The relation between the two states

  /** The conversation every stored nonce was stored under. */
  type Owners = map<string, string>

  function NextOwners(owners: Owners, op: Op): Owners {
    if op.SetRoute? then owners[op.route.nonce := op.id] else owners
  }

  ghost predicate SameConversations(t: RouteTable.Table, s: Store) {
    forall id :: RouteTable.Lookup(t.conversations, id) == ConversationAt(s, id)
  }

  /** A route is in the hash of `id` exactly when it is in memory and owned by `id`. */
  ghost predicate SameRoutes(t: RouteTable.Table, s: Store, owners: Owners) {
    && (forall n :: n in t.routes ==> n in owners)
    && (forall id, n :: RouteAt(s, id, n) == OwnedRoute(t, owners, id, n))
  }

  function OwnedRoute(t: RouteTable.Table, owners: Owners, id: string, nonce: string): Option<Route> {
    if nonce in t.routes && nonce in owners && owners[nonce] == id then Some(t.routes[nonce].value) else None
  }

  ghost predicate Related(t: RouteTable.Table, s: Store, owners: Owners) {
    SameConversations(t, s) && SameRoutes(t, s, owners)
  }

  predicate NoneExpired<T>(m: map<string, Expiring<T>>, now: int) {
    forall k :: k in m ==> !m[k].IsExpired(now)
  }

  /** What a caller can check beforehand. */
  predicate Guarded(t: RouteTable.Table, owners: Owners, op: Op, now: int) {
    match op
    case SetConversation(conversation) => conversation.id !in t.conversations
    case SetRoute(id, route) => id in t.conversations && route.nonce !in t.routes
    case GetRoute(id, nonce) => nonce in t.routes ==> nonce in owners && owners[nonce] == id
    case RemoveRoute(nonce) => nonce in t.routes ==> nonce in owners && owners[nonce] == nonce
    case Sweep => NoneExpired(t.routes, now) && NoneExpired(t.conversations, now)
    case _ => true
  }

  // ----- How each write looks to the reads

  lemma {:induction false} ReadsAfterConversation(s: Store, conversation: Conversation, now: int)
    ensures var s' := WithConversation(s, conversation, now);
      && (forall id ::
          ConversationAt(s', id) == if id == conversation.id then Some(conversation) else ConversationAt(s, id))
      && (forall id, n :: RouteAt(s', id, n) == RouteAt(s, id, n))
  {
    var s' := WithConversation(s, conversation, now);
    forall id
      ensures ConversationAt(s', id) == if id == conversation.id then Some(conversation) else ConversationAt(s, id)
    {
      KeysApart(conversation.id, id);
    }
    forall id, n ensures RouteAt(s', id, n) == RouteAt(s, id, n) {
      KeysApart(conversation.id, id);
    }
  }

  lemma {:induction false} ReadsAfterRemoval(s: Store, gone: string)
    ensures var s' := s - {ConversationKey(gone)};
      && (forall id :: ConversationAt(s', id) == if id == gone then None else ConversationAt(s, id))
      && (forall id, n :: RouteAt(s', id, n) == RouteAt(s, id, n))
  {
    var s' := s - {ConversationKey(gone)};
    forall id ensures ConversationAt(s', id) == if id == gone then None else ConversationAt(s, id) {
      KeysApart(gone, id);
    }
    forall id, n ensures RouteAt(s', id, n) == RouteAt(s, id, n) {
      KeysApart(gone, id);
    }
  }

  lemma {:induction false} ReadsAfterRoute(s: Store, owner: string, conversation: Conversation, route: Route, now: int)
    ensures var s' := WithRoute(s, owner, conversation, route, now);
      var longer := conversation.(routes := conversation.routes + [route]);
      && (forall id :: ConversationAt(s', id) == if id == owner then Some(longer) else ConversationAt(s, id))
      && (forall id, n ::
          RouteAt(s', id, n) == if id == owner && n == route.nonce then Some(route) else RouteAt(s, id, n))
  {
    var s' := WithRoute(s, owner, conversation, route, now);
    forall id ensures ConversationAt(s', id) ==
      if id == owner then Some(conversation.(routes := conversation.routes + [route])) else ConversationAt(s, id)
    {
      KeysApart(owner, id);
      KeysApart(id, owner);
    }
    forall id, n
      ensures RouteAt(s', id, n) == if id == owner && n == route.nonce then Some(route) else RouteAt(s, id, n)
    {
      KeysApart(owner, id);
    }
  }

  lemma {:induction false} ReadsAfterRemoveRoute(s: Store, nonce: string)
    ensures var s' := WithoutField(s, RoutesKey(nonce), nonce);
      && (forall id :: ConversationAt(s', id) == ConversationAt(s, id))
      && (forall id, n :: RouteAt(s', id, n) == if id == nonce && n == nonce then None else RouteAt(s, id, n))
  {
    var s' := WithoutField(s, RoutesKey(nonce), nonce);
    forall id ensures ConversationAt(s', id) == ConversationAt(s, id) {
      KeysApart(id, nonce);
    }
    forall id, n ensures RouteAt(s', id, n) == if id == nonce && n == nonce then None else RouteAt(s, id, n) {
      KeysApart(id, nonce);
      var left := RoutesAt(s, nonce) - {nonce};
      assert left == map[] ==> forall m :: m in RoutesAt(s, nonce) ==> m == nonce by {
        forall m | left == map[] && m in RoutesAt(s, nonce) ensures m == nonce {
          assert m != nonce ==> m in left;
        }
      }
    }
  }

  // ----- One call: alike exactly under the guard

  ghost predicate Alike(t: RouteTable.Table, s: Store, owners: Owners, op: Op, now: int) {
    && MemoryAnswer(t, op) == RedisAnswer(s, op)
    && Related(MemoryNext(t, op, now), RedisNext(s, op, now), NextOwners(owners, op))
  }

  lemma {:induction false} SetRouteAlikeIff(t: RouteTable.Table, s: Store, owners: Owners, id: string, route: Route,
                                            now: int)
    requires Related(t, s, owners)
    ensures Alike(t, s, owners, SetRoute(id, route), now) <==> Guarded(t, owners, SetRoute(id, route), now)
  {
    assert RouteTable.Lookup(t.conversations, id) == ConversationAt(s, id);
    if id in t.conversations {
      ReadsAfterRoute(s, id, t.conversations[id].value, route, now);
    }
  }

  lemma {:induction false} RemoveRouteAlikeIff(t: RouteTable.Table, s: Store, owners: Owners, nonce: string, now: int)
    requires Related(t, s, owners)
    ensures Alike(t, s, owners, RemoveRoute(nonce), now) <==> Guarded(t, owners, RemoveRoute(nonce), now)
  {
    ReadsAfterRemoveRoute(s, nonce);
    if nonce in t.routes {
      var owner := owners[nonce];
      assert RouteAt(s, owner, nonce) == Some(t.routes[nonce].value);
      assert RouteTable.Lookup(MemoryNext(t, RemoveRoute(nonce), now).routes, nonce) == None;
    }
  }

  lemma {:induction false} SweepAlikeIff(t: RouteTable.Table, s: Store, owners: Owners, now: int)
    requires Related(t, s, owners)
    ensures Alike(t, s, owners, Sweep, now) <==> Guarded(t, owners, Sweep, now)
  {
    var t' := RouteTable.Swept(t, now);
    if Guarded(t, owners, Sweep, now) {
      assert t'.routes == t.routes && t'.conversations == t.conversations;
    }
    if id :| id in t.conversations && t.conversations[id].IsExpired(now) {
      assert RouteTable.Lookup(t.conversations, id) == ConversationAt(s, id) != RouteTable.Lookup(t'.conversations, id);
    }
    if n :| n in t.routes && t.routes[n].IsExpired(now) {
      assert RouteAt(s, owners[n], n) == OwnedRoute(t, owners, owners[n], n) != OwnedRoute(t', owners, owners[n], n);
    }
  }

  /** From related states a call gets equal answers and leaves related states if and only if: a conversation id
      is new, a route is stored with a new nonce under a present conversation, a stored nonce is looked up under
      its own conversation, remove_route is not used on a stored nonce (unless it is its conversation's id), and
      no sweep meets an expired entry. */
  lemma {:induction false} AlikeIff(t: RouteTable.Table, s: Store, owners: Owners, op: Op, now: int)
    requires Related(t, s, owners)
    ensures Alike(t, s, owners, op, now) <==> Guarded(t, owners, op, now)
  {
    match op
    case SetConversation(conversation) => ReadsAfterConversation(s, conversation, now);
    case RemoveConversation(id) => ReadsAfterRemoval(s, id);
    case GetConversation(id) =>
    case SetRoute(id, route) => SetRouteAlikeIff(t, s, owners, id, route, now);
    case GetRoute(id, nonce) =>
      assert RouteAt(s, id, nonce) == OwnedRoute(t, owners, id, nonce);
    case RemoveRoute(nonce) => RemoveRouteAlikeIff(t, s, owners, nonce, now);
    case Sweep => SweepAlikeIff(t, s, owners, now);
  }

  // ----- One call at a time: what the deadlines that have passed by then do

  predicate TalkGone(s: Store, id: string, now: int) {
    ConversationKey(id) in s && s[ConversationKey(id)].IsExpired(now)
  }

  predicate HashGone(s: Store, id: string, now: int) {
    RoutesKey(id) in s && s[RoutesKey(id)].IsExpired(now)
  }

  lemma {:induction false} ReadsAfterElapse(s: Store, now: int)
    ensures forall id ::
      ConversationAt(Elapsed(s, now), id) == if TalkGone(s, id, now) then None else ConversationAt(s, id)
    ensures forall id, n ::
      RouteAt(Elapsed(s, now), id, n) == if HashGone(s, id, now) then None else RouteAt(s, id, n)
  {
  }

  /** No conversation in memory, other than `except`, has an expired key in Redis. */
  ghost predicate TalksLast(t: RouteTable.Table, s: Store, now: int, except: Option<string>) {
    forall id :: id in t.conversations && except != Some(id) ==> !TalkGone(s, id, now)
  }

  /** No route in memory, other than `except`, has an expired hash in Redis. */
  ghost predicate HashesLast(t: RouteTable.Table, s: Store, owners: Owners, now: int, except: Option<string>) {
    forall n :: n in t.routes && n in owners && except != Some(n) ==> !HashGone(s, owners[n], now)
  }

  ghost predicate AllLast(t: RouteTable.Table, s: Store, owners: Owners, now: int) {
    TalksLast(t, s, now, None) && HashesLast(t, s, owners, now, None)
  }

  /** A sweep of the memory finds expired exactly what Redis has let go. */
  ghost predicate ExpireTogether(t: RouteTable.Table, s: Store, owners: Owners, now: int) {
    && (forall id :: id in t.conversations ==> (t.conversations[id].IsExpired(now) <==> TalkGone(s, id, now)))
    && (forall n :: n in t.routes && n in owners ==> (t.routes[n].IsExpired(now) <==> HashGone(s, owners[n], now)))
  }

  /** The guards of a call at a time: what it is about may go with it, everything else must still be there. */
  ghost predicate TimedGuarded(t: RouteTable.Table, s: Store, owners: Owners, op: Op, now: int) {
    match op
    case RemoveConversation(id) => TalksLast(t, s, now, Some(id)) && HashesLast(t, s, owners, now, None)
    case RemoveRoute(nonce) =>
      && TalksLast(t, s, now, None)
      && HashesLast(t, s, owners, now, Some(nonce))
      && (nonce in t.routes ==> nonce in owners && (owners[nonce] == nonce || HashGone(s, owners[nonce], now)))
    case Sweep => ExpireTogether(t, s, owners, now)
    case _ => Guarded(t, owners, op, now) && AllLast(t, s, owners, now)
  }

  ghost predicate TimedAlike(t: RouteTable.Table, s: Store, owners: Owners, op: Op, now: int) {
    Alike(t, Elapsed(s, now), owners, op, now)
  }

  /** Time alone keeps the states related if and only if Redis let nothing go that is in memory. */
  lemma {:induction false} ElapsedRelatedIff(t: RouteTable.Table, s: Store, owners: Owners, now: int)
    requires Related(t, s, owners)
    ensures Related(t, Elapsed(s, now), owners) <==> AllLast(t, s, owners, now)
  {
    ReadsAfterElapse(s, now);
    var left := Elapsed(s, now);
    if Related(t, left, owners) {
      forall id | id in t.conversations ensures !TalkGone(s, id, now) {
        assert RouteTable.Lookup(t.conversations, id) == ConversationAt(left, id);
      }
      forall n | n in t.routes && n in owners ensures !HashGone(s, owners[n], now) {
        assert RouteAt(left, owners[n], n) == OwnedRoute(t, owners, owners[n], n);
      }
    }
    if AllLast(t, s, owners, now) {
      forall id ensures RouteTable.Lookup(t.conversations, id) == ConversationAt(left, id) {
        assert RouteTable.Lookup(t.conversations, id) == ConversationAt(s, id);
      }
      forall id, n ensures RouteAt(left, id, n) == OwnedRoute(t, owners, id, n) {
        assert RouteAt(s, id, n) == OwnedRoute(t, owners, id, n);
      }
    }
  }

  lemma {:induction false} SetConversationNeedsAll(t: RouteTable.Table, s: Store, owners: Owners,
                                                   conversation: Conversation, now: int)
    requires Related(t, s, owners) && TimedAlike(t, s, owners, SetConversation(conversation), now)
    ensures AllLast(t, s, owners, now)
  {
    var t', left := RouteTable.SetConversation(t, conversation, now), Elapsed(s, now);
    ReadsAfterElapse(s, now);
    ReadsAfterConversation(left, conversation, now);
    forall id | id in t.conversations ensures !TalkGone(s, id, now) {
      assert RouteTable.Lookup(t'.conversations, id).Some?;
    }
    forall n | n in t.routes && n in owners ensures !HashGone(s, owners[n], now) {
      assert OwnedRoute(t', owners, owners[n], n).Some?;
    }
  }

  lemma {:induction false} SetRouteNeedsAll(t: RouteTable.Table, s: Store, owners: Owners,
                                            owner: string, route: Route, now: int)
    requires Related(t, s, owners) && TimedAlike(t, s, owners, SetRoute(owner, route), now)
    ensures AllLast(t, s, owners, now)
  {
    var t', left := RouteTable.SetRoute(t, owner, route, now), Elapsed(s, now);
    var owners' := NextOwners(owners, SetRoute(owner, route));
    ReadsAfterElapse(s, now);
    assert ConversationAt(left, owner).Some? && route.nonce !in t.routes;
    ReadsAfterRoute(left, owner, ConversationAt(left, owner).value, route, now);
    forall id | id in t.conversations ensures !TalkGone(s, id, now) {
      assert RouteTable.Lookup(t'.conversations, id).Some?;
    }
    forall n | n in t.routes && n in owners ensures !HashGone(s, owners[n], now) {
      assert n != route.nonce && OwnedRoute(t', owners', owners[n], n).Some?;
    }
  }

  lemma {:induction false} RemoveConversationTimedIff(t: RouteTable.Table, s: Store, owners: Owners,
                                                      gone: string, now: int)
    requires Related(t, s, owners)
    ensures TimedAlike(t, s, owners, RemoveConversation(gone), now) <==>
      TimedGuarded(t, s, owners, RemoveConversation(gone), now)
  {
    var t', left := RouteTable.RemoveConversation(t, gone), Elapsed(s, now);
    var s' := left - {ConversationKey(gone)};
    ReadsAfterElapse(s, now);
    ReadsAfterRemoval(left, gone);
    if TimedAlike(t, s, owners, RemoveConversation(gone), now) {
      forall id | id in t.conversations && id != gone ensures !TalkGone(s, id, now) {
        assert RouteTable.Lookup(t'.conversations, id) == ConversationAt(s', id);
      }
      forall n | n in t.routes && n in owners ensures !HashGone(s, owners[n], now) {
        assert RouteAt(s', owners[n], n) == OwnedRoute(t', owners, owners[n], n);
      }
    }
    if TimedGuarded(t, s, owners, RemoveConversation(gone), now) {
      forall id ensures RouteTable.Lookup(t'.conversations, id) == ConversationAt(s', id) {
        assert RouteTable.Lookup(t.conversations, id) == ConversationAt(s, id);
      }
      forall id, n ensures RouteAt(s', id, n) == OwnedRoute(t', owners, id, n) {
        assert RouteAt(s, id, n) == OwnedRoute(t, owners, id, n);
      }
    }
  }

  lemma {:induction false} RemoveRouteTimedIff(t: RouteTable.Table, s: Store, owners: Owners, nonce: string, now: int)
    requires Related(t, s, owners)
    ensures TimedAlike(t, s, owners, RemoveRoute(nonce), now) <==>
      TimedGuarded(t, s, owners, RemoveRoute(nonce), now)
  {
    var t', left := RouteTable.RemoveRoute(t, nonce), Elapsed(s, now);
    var s' := RedisNext(left, RemoveRoute(nonce), now);
    ReadsAfterElapse(s, now);
    ReadsAfterRemoveRoute(left, nonce);
    if TimedAlike(t, s, owners, RemoveRoute(nonce), now) {
      forall id | id in t.conversations ensures !TalkGone(s, id, now) {
        assert RouteTable.Lookup(t'.conversations, id) == ConversationAt(s', id);
      }
      forall n | n in t.routes && n in owners && n != nonce ensures !HashGone(s, owners[n], now) {
        assert RouteAt(s', owners[n], n) == OwnedRoute(t', owners, owners[n], n);
      }
      if nonce in t.routes {
        assert RouteAt(s', owners[nonce], nonce) == OwnedRoute(t', owners, owners[nonce], nonce);
        assert RouteAt(s, owners[nonce], nonce) == OwnedRoute(t, owners, owners[nonce], nonce);
      }
    }
    if TimedGuarded(t, s, owners, RemoveRoute(nonce), now) {
      forall id ensures RouteTable.Lookup(t'.conversations, id) == ConversationAt(s', id) {
        assert RouteTable.Lookup(t.conversations, id) == ConversationAt(s, id);
      }
      forall id, n ensures RouteAt(s', id, n) == OwnedRoute(t', owners, id, n) {
        assert RouteAt(s, id, n) == OwnedRoute(t, owners, id, n);
      }
    }
  }

  lemma {:induction false} SweepTimedIff(t: RouteTable.Table, s: Store, owners: Owners, now: int)
    requires Related(t, s, owners)
    ensures TimedAlike(t, s, owners, Sweep, now) <==> ExpireTogether(t, s, owners, now)
  {
    var t', left := RouteTable.Swept(t, now), Elapsed(s, now);
    ReadsAfterElapse(s, now);
    if TimedAlike(t, s, owners, Sweep, now) {
      forall id | id in t.conversations ensures t.conversations[id].IsExpired(now) <==> TalkGone(s, id, now) {
        assert RouteTable.Lookup(t'.conversations, id) == ConversationAt(left, id);
        assert RouteTable.Lookup(t.conversations, id) == ConversationAt(s, id);
      }
      forall n | n in t.routes && n in owners ensures t.routes[n].IsExpired(now) <==> HashGone(s, owners[n], now) {
        assert RouteAt(left, owners[n], n) == OwnedRoute(t', owners, owners[n], n);
        assert RouteAt(s, owners[n], n) == OwnedRoute(t, owners, owners[n], n);
      }
    }
    if ExpireTogether(t, s, owners, now) {
      forall id ensures RouteTable.Lookup(t'.conversations, id) == ConversationAt(left, id) {
        assert RouteTable.Lookup(t.conversations, id) == ConversationAt(s, id);
      }
      forall id, n ensures RouteAt(left, id, n) == OwnedRoute(t', owners, id, n) {
        assert RouteAt(s, id, n) == OwnedRoute(t, owners, id, n);
      }
    }
  }

  /** From states that were related after the last command, a call at time `now` is answered alike and leaves
      related states if and only if it meets its guard and no deadline in Redis has passed for anything that is
      in memory, other than what the call removes itself; and a sweep if and only if every entry in memory has
      expired exactly when its key in Redis has. */
  lemma {:induction false} TimedAlikeIff(t: RouteTable.Table, s: Store, owners: Owners, op: Op, now: int)
    requires Related(t, s, owners)
    ensures TimedAlike(t, s, owners, op, now) <==> TimedGuarded(t, s, owners, op, now)
  {
    ElapsedRelatedIff(t, s, owners, now);
    if AllLast(t, s, owners, now) {
      AlikeIff(t, Elapsed(s, now), owners, op, now);
    }
    match op
    case SetConversation(conversation) =>
      if TimedAlike(t, s, owners, op, now) {
        SetConversationNeedsAll(t, s, owners, conversation, now);
      }
    case SetRoute(id, route) =>
      if TimedAlike(t, s, owners, op, now) {
        SetRouteNeedsAll(t, s, owners, id, route, now);
      }
    case RemoveConversation(id) => RemoveConversationTimedIff(t, s, owners, id, now);
    case RemoveRoute(nonce) => RemoveRouteTimedIff(t, s, owners, nonce, now);
    case Sweep => SweepTimedIff(t, s, owners, now);
    case _ =>
  }

  // ----- Whole runs

  function MemoryAnswers(t: RouteTable.Table, ops: seq<Timed>): seq<Answer>
    decreases |ops|
  {
    if ops == [] then []
    else [MemoryAnswer(t, ops[0].op)] + MemoryAnswers(MemoryNext(t, ops[0].op, ops[0].at), ops[1..])
  }

  /** Redis before a command lets go what has expired. */
  function RedisStep(s: Store, timed: Timed): Store {
    RedisNext(Elapsed(s, timed.at), timed.op, timed.at)
  }

  function RedisAnswers(s: Store, ops: seq<Timed>): seq<Answer>
    decreases |ops|
  {
    if ops == [] then []
    else [RedisAnswer(Elapsed(s, ops[0].at), ops[0].op)] + RedisAnswers(RedisStep(s, ops[0]), ops[1..])
  }

  /** Every call meets its guard at its time. */
  ghost predicate GuardedRun(t: RouteTable.Table, s: Store, owners: Owners, ops: seq<Timed>)
    decreases |ops|
  {
    ops != [] ==>
      var op, now := ops[0].op, ops[0].at;
      && TimedGuarded(t, s, owners, op, now)
      && GuardedRun(MemoryNext(t, op, now), RedisStep(s, ops[0]), NextOwners(owners, op), ops[1..])
  }

  /** Every call is answered alike and leaves related states. */
  ghost predicate AlikeRun(t: RouteTable.Table, s: Store, owners: Owners, ops: seq<Timed>)
    decreases |ops|
  {
    ops != [] ==>
      var op, now := ops[0].op, ops[0].at;
      && TimedAlike(t, s, owners, op, now)
      && AlikeRun(MemoryNext(t, op, now), RedisStep(s, ops[0]), NextOwners(owners, op), ops[1..])
  }

  /** The two backends stay alike through a run, at whatever times its calls come and however many keys expire
      meanwhile, if and only if every call meets its guard at its time; and then they give the same answers. */
  lemma {:induction false} BackendsAgree(t: RouteTable.Table, s: Store, owners: Owners, ops: seq<Timed>)
    requires Related(t, s, owners)
    ensures AlikeRun(t, s, owners, ops) <==> GuardedRun(t, s, owners, ops)
    ensures GuardedRun(t, s, owners, ops) ==> MemoryAnswers(t, ops) == RedisAnswers(s, ops)
    decreases |ops|
  {
    if ops != [] {
      var op, now := ops[0].op, ops[0].at;
      TimedAlikeIff(t, s, owners, op, now);
      if TimedAlike(t, s, owners, op, now) {
        BackendsAgree(MemoryNext(t, op, now), RedisStep(s, ops[0]), NextOwners(owners, op), ops[1..]);
      }
    }
  }

  // ----- The first minute

  predicate LastsUntil<T>(m: map<string, Expiring<T>>, end: int) {
    forall k :: k in m ==> end <= m[k].expiresAt
  }

  /** The guards of the calls themselves; sweeps may come at any time. */
  ghost predicate ProperRun(t: RouteTable.Table, owners: Owners, ops: seq<Timed>)
    decreases |ops|
  {
    ops != [] ==>
      && (ops[0].op.Sweep? || Guarded(t, owners, ops[0].op, ops[0].at))
      && ProperRun(MemoryNext(t, ops[0].op, ops[0].at), NextOwners(owners, ops[0].op), ops[1..])
  }

  lemma {:induction false} NothingElapsed(s: Store, now: int)
    requires forall k :: k in s ==> !s[k].IsExpired(now)
    ensures Elapsed(s, now) == s
  {
  }

  lemma {:induction false} StillLasts(t: RouteTable.Table, s: Store, op: Op, now: int, end: int)
    requires LastsUntil(t.routes, end) && LastsUntil(t.conversations, end) && LastsUntil(s, end)
    requires end - 60000 <= now
    ensures var t' := MemoryNext(t, op, now);
      LastsUntil(t'.routes, end) && LastsUntil(t'.conversations, end) && LastsUntil(RedisNext(s, op, now), end)
  {
  }

  lemma {:induction false} MinuteIsGuarded(t: RouteTable.Table, s: Store, owners: Owners, ops: seq<Timed>, end: int)
    requires LastsUntil(t.routes, end) && LastsUntil(t.conversations, end) && LastsUntil(s, end)
    requires ProperRun(t, owners, ops)
    requires forall timed :: timed in ops ==> end - 60000 <= timed.at <= end
    ensures GuardedRun(t, s, owners, ops)
    decreases |ops|
  {
    if ops != [] {
      var op, now := ops[0].op, ops[0].at;
      assert ops[0] in ops;
      NothingElapsed(s, now);
      StillLasts(t, s, op, now, end);
      MinuteIsGuarded(MemoryNext(t, op, now), RedisNext(s, op, now), NextOwners(owners, op), ops[1..], end);
    }
  }

  /** From the empty repositories, for 60000 ms, deadlines make no difference: with fresh ids and nonces, routes
      stored under present conversations, nonces looked up under their own and none removed, the answers agree
      however often the memory is swept. */
  lemma {:induction false} AgreeForAMinute(ops: seq<Timed>, start: int)
    requires ProperRun(RouteTable.EMPTY, map[], ops)
    requires forall timed :: timed in ops ==> start <= timed.at <= start + 60000
    ensures MemoryAnswers(RouteTable.EMPTY, ops) == RedisAnswers(map[], ops)
  {
    EmptyRelated();
    MinuteIsGuarded(RouteTable.EMPTY, map[], map[], ops, start + 60000);
    BackendsAgree(RouteTable.EMPTY, map[], map[], ops);
  }

  /** A millisecond more is too long: memory answers what has expired until it is swept, Redis does not. */
  lemma {:induction false} SilentTalkDiffers(conversation: Conversation, start: int)
    ensures var ops := [Timed(SetConversation(conversation), start),
                        Timed(GetConversation(conversation.id), start + 60001)];
      && ProperRun(RouteTable.EMPTY, map[], ops)
      && MemoryAnswers(RouteTable.EMPTY, ops) == [Name(Some(conversation.id)), Talk(Some(conversation))]
      && RedisAnswers(map[], ops) == [Name(Some(conversation.id)), Talk(None)]
  {
    var setting := Timed(SetConversation(conversation), start);
    var getting := Timed(GetConversation(conversation.id), start + 60001);
    var ops := [setting, getting];
    assert ops[1..] == [getting] && [getting][1..] == [];
    var t := MemoryNext(RouteTable.EMPTY, setting.op, start);
    assert MemoryAnswers(t, [getting]) == [Talk(Some(conversation))];
    var s := RedisStep(map[], setting);
    assert ConversationKey(conversation.id) in s && TalkGone(s, conversation.id, start + 60001);
    assert RedisAnswers(s, [getting]) == [Talk(None)];
    assert ProperRun(t, map[], [getting]);
  }

  function LongTalk(conversation: Conversation, route: Route): seq<Timed> {
    [Timed(SetConversation(conversation), 0), Timed(SetRoute(conversation.id, route), 40000),
     Timed(Sweep, 90000), Timed(GetConversation(conversation.id), 95000)]
  }

  lemma {:induction false} MemoryForgetsTalk(conversation: Conversation, route: Route)
    ensures var answers := MemoryAnswers(RouteTable.EMPTY, LongTalk(conversation, route));
      |answers| == 4 && answers[3] == Talk(None)
  {
    var ops := LongTalk(conversation, route);
    assert ops[1..][1..] == ops[2..] && ops[2..][1..] == ops[3..] && ops[3..][1..] == [];
    var t1 := MemoryNext(RouteTable.EMPTY, ops[0].op, 0);
    var t2 := MemoryNext(t1, ops[1].op, 40000);
    var t3 := MemoryNext(t2, Sweep, 90000);
    assert conversation.id !in t3.conversations;
    assert MemoryAnswers(t3, ops[3..]) == [Talk(None)];
    assert |MemoryAnswers(t2, ops[2..])| == 2 && MemoryAnswers(t2, ops[2..])[1] == Talk(None);
    assert |MemoryAnswers(t1, ops[1..])| == 3 && MemoryAnswers(t1, ops[1..])[2] == Talk(None);
  }

  lemma {:induction false} RedisRemembersTalk(conversation: Conversation, route: Route)
    ensures var answers := RedisAnswers(map[], LongTalk(conversation, route));
      |answers| == 4 && answers[3] == Talk(Some(conversation.(routes := conversation.routes + [route])))
  {
    var ops, id := LongTalk(conversation, route), conversation.id;
    assert ops[1..][1..] == ops[2..] && ops[2..][1..] == ops[3..] && ops[3..][1..] == [];
    var longer := Talk(Some(conversation.(routes := conversation.routes + [route])));
    NothingElapsed(map[], 0);
    var s1 := RedisNext(map[], ops[0].op, 0);
    NothingElapsed(s1, 40000);
    assert ConversationAt(s1, id) == Some(conversation);
    var s2 := RedisNext(s1, ops[1].op, 40000);
    ReadsAfterRoute(s1, id, conversation, route, 40000);
    NothingElapsed(s2, 90000);
    NothingElapsed(s2, 95000);
    assert RedisAnswers(s2, ops[3..]) == [longer];
    assert |RedisAnswers(s2, ops[2..])| == 2 && RedisAnswers(s2, ops[2..])[1] == longer;
    assert |RedisAnswers(s1, ops[1..])| == 3 && RedisAnswers(s1, ops[1..])[2] == longer;
  }

  /** Later they do: a route prolongs its conversation in Redis but not in memory, where a sweep takes it. */
  lemma {:induction false} LongTalkDiffers(conversation: Conversation, route: Route)
    ensures var ops := LongTalk(conversation, route);
      MemoryAnswers(RouteTable.EMPTY, ops) != RedisAnswers(map[], ops)
  {
    MemoryForgetsTalk(conversation, route);
    RedisRemembersTalk(conversation, route);
  }

  lemma {:induction false} EmptyRelated()
    ensures Related(RouteTable.EMPTY, map[], map[])
  {
  }

  /** redeem_route in Redis: the nonce of a conversation other than itself can be redeemed again and again. */
  lemma {:induction false} RedisRedeemKeepsNonce(s: Store, id: string, nonce: string, now: int)
    requires RouteAt(s, id, nonce).Some?
    ensures RouteAt(RedisNext(s, RemoveRoute(nonce), now), id, nonce) == RouteAt(s, id, nonce) <==> id != nonce
  {
    ReadsAfterRemoveRoute(s, nonce);
  }

  // ----- How long a redeemed nonce stays

  function RedisRun(s: Store, ops: seq<Timed>): Store
    decreases |ops|
  {
    if ops == [] then s else RedisRun(RedisStep(s, ops[0]), ops[1..])
  }

  /** The nonce is not generated again. */
  predicate NotStored(ops: seq<Timed>, nonce: string) {
    forall timed :: timed in ops && timed.op.SetRoute? ==> timed.op.route.nonce != nonce
  }

  /** No command, nor the lookup at `u`, comes after the deadline the hash then has. */
  predicate HashLastsThrough(s: Store, ops: seq<Timed>, id: string, u: int)
    decreases |ops|
  {
    if ops == [] then !HashGone(s, id, u)
    else !HashGone(s, id, ops[0].at) && HashLastsThrough(RedisStep(s, ops[0]), ops[1..], id, u)
  }

  lemma {:induction false} RouteAfterStep(s: Store, timed: Timed, id: string, nonce: string)
    requires id != nonce && NotStored([timed], nonce)
    ensures RouteAt(RedisStep(s, timed), id, nonce) == if HashGone(s, id, timed.at) then None else RouteAt(s, id, nonce)
  {
    var left := Elapsed(s, timed.at);
    ReadsAfterElapse(s, timed.at);
    match timed.op
    case SetConversation(conversation) => ReadsAfterConversation(left, conversation, timed.at);
    case RemoveConversation(gone) => ReadsAfterRemoval(left, gone);
    case SetRoute(owner, route) =>
      assert timed in [timed];
      if ConversationAt(left, owner).Some? {
        ReadsAfterRoute(left, owner, ConversationAt(left, owner).value, route, timed.at);
      }
    case RemoveRoute(other) => ReadsAfterRemoveRoute(left, other);
    case _ =>
  }

  lemma {:induction false} GoneRouteStaysGone(s: Store, ops: seq<Timed>, id: string, nonce: string)
    requires id != nonce && NotStored(ops, nonce) && RouteAt(s, id, nonce).None?
    ensures RouteAt(RedisRun(s, ops), id, nonce).None?
    decreases |ops|
  {
    if ops != [] {
      assert ops[0] in ops;
      RouteAfterStep(s, ops[0], id, nonce);
      GoneRouteStaysGone(RedisStep(s, ops[0]), ops[1..], id, nonce);
    }
  }

  /** Whatever is called, also any number of redemptions of the nonce itself, a nonce other than its
      conversation's id is found at `u` if and only if the conversation's hash had not expired at any command up
      to `u`; and it is the same route. */
  lemma {:induction false} RedisFindsNonceIff(s: Store, ops: seq<Timed>, id: string, nonce: string, u: int)
    requires id != nonce && NotStored(ops, nonce) && RouteAt(s, id, nonce).Some?
    ensures RouteAt(Elapsed(RedisRun(s, ops), u), id, nonce) ==
      if HashLastsThrough(s, ops, id, u) then RouteAt(s, id, nonce) else None
    decreases |ops|
  {
    if ops == [] {
      ReadsAfterElapse(s, u);
    } else {
      assert ops[0] in ops;
      var s' := RedisStep(s, ops[0]);
      RouteAfterStep(s, ops[0], id, nonce);
      if HashGone(s, id, ops[0].at) {
        GoneRouteStaysGone(s', ops[1..], id, nonce);
        ReadsAfterElapse(RedisRun(s', ops[1..]), u);
      } else {
        RedisFindsNonceIff(s', ops[1..], id, nonce, u);
      }
    }
  }
}
