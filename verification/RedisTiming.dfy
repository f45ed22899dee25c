/** How long the Redis route repository keeps what is stored, by the times of the calls of a run. */
module RedisTiming {
  import opened Models
  import RouteTable
  import opened RedisRepository
  import opened BackendSimulation

  /** The store after the first n calls of a run from the empty one. */
  function StoreAfter(ops: seq<Timed>, n: nat): Store
    requires n <= |ops|
  {
    if n == 0 then map[] else RedisStep(StoreAfter(ops, n - 1), ops[n - 1])
  }

  ghost predicate Clocked(ops: seq<Timed>) {
    forall i, j :: 0 <= i < j < |ops| ==> ops[i].at <= ops[j].at
  }

  /** The n-th call was a set_route under `id`, and it answered instead of panicking. */
  predicate RouteAnswered(ops: seq<Timed>, n: nat, id: string)
    requires n < |ops|
  {
    && ops[n].op.SetRoute?
    && ops[n].op.id == id
    && RedisAnswer(Elapsed(StoreAfter(ops, n), ops[n].at), ops[n].op) != Crash
  }

  predicate TalkTouched(ops: seq<Timed>, n: nat, id: string)
    requires n < |ops|
  {
    RouteAnswered(ops, n, id) || (ops[n].op.SetConversation? && ops[n].op.conversation.id == id)
  }

  /** The answers are those of the run. */
  lemma {:induction false} AnswersAfter(ops: seq<Timed>, n: nat)
    requires n < |ops|
    ensures |RedisAnswers(StoreAfter(ops, n), ops[n..])| == |ops| - n
    ensures RedisAnswers(StoreAfter(ops, n), ops[n..])[0] ==
      RedisAnswer(Elapsed(StoreAfter(ops, n), ops[n].at), ops[n].op)
    decreases |ops| - n
  {
    assert ops[n..][1..] == ops[n + 1..];
    if n + 1 < |ops| {
      AnswersAfter(ops, n + 1);
    }
  }

  function Entry(s: Store, key: string): Option<Expiring<Value>> {
    if key in s then Some(s[key]) else None
  }

  // ----- How a call changes the two entries of a conversation

  lemma {:induction false} TalkEntryAfter(ops: seq<Timed>, n: nat, id: string)
    requires n < |ops|
    ensures var left := Elapsed(StoreAfter(ops, n), ops[n].at);
      var entry := Entry(StoreAfter(ops, n + 1), ConversationKey(id));
      if TalkTouched(ops, n, id) then
        entry.Some? && entry.value.value.Text? && entry.value.expiresAt == ops[n].at + 60000
      else if ops[n].op == RemoveConversation(id) then entry == None
      else entry == Entry(left, ConversationKey(id))
  {
    match ops[n].op
    case SetConversation(conversation) => KeysApart(conversation.id, id);
    case RemoveConversation(gone) => KeysApart(gone, id);
    case SetRoute(owner, _) =>
      KeysApart(owner, id);
      KeysApart(id, owner);
    case RemoveRoute(nonce) => KeysApart(id, nonce);
    case _ =>
  }

  lemma {:induction false} HashEntryAfter(ops: seq<Timed>, n: nat, id: string)
    requires n < |ops|
    ensures var left, entry := Elapsed(StoreAfter(ops, n), ops[n].at), Entry(StoreAfter(ops, n + 1), RoutesKey(id));
      if RouteAnswered(ops, n, id) then
        var route := ops[n].op.route;
        && entry.Some?
        && entry.value.value == Hash(RoutesAt(left, id)[route.nonce := route])
        && entry.value.expiresAt == ops[n].at + 60000
      else if ops[n].op == RemoveRoute(id) then
        var before := Entry(left, RoutesKey(id));
        entry.Some? ==> before.Some? && entry.value.expiresAt == before.value.expiresAt
      else entry == Entry(left, RoutesKey(id))
  {
    match ops[n].op
    case SetConversation(conversation) => KeysApart(conversation.id, id);
    case RemoveConversation(gone) => KeysApart(gone, id);
    case SetRoute(owner, _) =>
      KeysApart(owner, id);
      KeysApart(id, owner);
    case RemoveRoute(nonce) => KeysApart(id, nonce);
    case _ =>
  }

  // ----- The conversation's key

  /** The k-th call gave the conversation a term that reaches `u`, and nothing removed it before the n-th. */
  ghost predicate TalkKept(ops: seq<Timed>, k: nat, n: nat, id: string, u: int)
    requires n <= |ops|
  {
    && k < n
    && TalkTouched(ops, k, id)
    && u <= ops[k].at + 60000
    && forall m :: k < m < n ==> ops[m].op != RemoveConversation(id)
  }

  /** A conversation is found at `u` if and only if it was set, or got a route, at most 60000 ms before and was not
      removed since. */
  lemma {:induction false} TalkFoundIff(ops: seq<Timed>, n: nat, id: string, u: int)
    requires Clocked(ops) && n <= |ops| && forall j :: 0 <= j < n ==> ops[j].at <= u
    ensures ConversationAt(Elapsed(StoreAfter(ops, n), u), id).Some? <==> exists k: nat :: TalkKept(ops, k, n, id, u)
    decreases n
  {
    if n > 0 {
      var last: nat := n - 1;
      TalkFoundIff(ops, last, id, u);
      TalkEntryAfter(ops, last, id);
      TalkKeptOneMore(ops, last, n, id, u);
      assert Entry(Elapsed(Elapsed(StoreAfter(ops, last), ops[last].at), u), ConversationKey(id)) ==
        Entry(Elapsed(StoreAfter(ops, last), u), ConversationKey(id));
    }
  }

  lemma {:induction false} TalkKeptOneMore(ops: seq<Timed>, last: nat, n: nat, id: string, u: int)
    requires Clocked(ops) && n == last + 1 && n <= |ops|
    ensures (exists k: nat :: TalkKept(ops, k, n, id, u)) <==>
      if TalkTouched(ops, last, id) then u <= ops[last].at + 60000
      else ops[last].op != RemoveConversation(id) && exists k: nat :: TalkKept(ops, k, last, id, u)
  {
    if TalkTouched(ops, last, id) && u <= ops[last].at + 60000 {
      assert TalkKept(ops, last, n, id, u);
    }
    if k: nat :| TalkKept(ops, k, n, id, u) {
      assert k == last || TalkKept(ops, k, last, id, u);
    }
    if ops[last].op != RemoveConversation(id) {
      if k: nat :| TalkKept(ops, k, last, id, u) {
        assert TalkKept(ops, k, n, id, u);
      }
    }
  }

  // ----- The hash of its routes

  /** Some answered set_route from the i-th call on, before the n-th, is at most 60000 ms before `u`. */
  ghost predicate Covered(ops: seq<Timed>, i: nat, n: nat, id: string, u: int)
    requires n <= |ops|
  {
    exists k :: i <= k < n && RouteAnswered(ops, k, id) && u <= ops[k].at + 60000
  }

  /** The hash of a conversation is there at `u` only if a route was stored in it at most 60000 ms before. */
  lemma {:induction false} HashThereOnlyIf(ops: seq<Timed>, n: nat, id: string, u: int)
    requires Clocked(ops) && n <= |ops| && forall j :: 0 <= j < n ==> ops[j].at <= u
    requires RoutesKey(id) in Elapsed(StoreAfter(ops, n), u)
    ensures Covered(ops, 0, n, id, u)
    decreases n
  {
    var last: nat := n - 1;
    HashEntryAfter(ops, last, id);
    if !RouteAnswered(ops, last, id) {
      HashThereOnlyIf(ops, last, id, u);
    }
  }

  /** From the i-th call on no two consecutive answered set_routes under `id`, nor the last and `u`, are more than
      60000 ms apart. */
  ghost predicate NoGap(ops: seq<Timed>, i: nat, n: nat, id: string, u: int)
    requires n <= |ops|
  {
    Covered(ops, i, n, id, u) && Gapless(ops, i, n, id)
  }

  ghost predicate Gapless(ops: seq<Timed>, i: nat, n: nat, id: string)
    requires n <= |ops|
  {
    forall j: nat :: i < j < n && RouteAnswered(ops, j, id) ==> Covered(ops, i, j, id, ops[j].at)
  }

  lemma {:induction false} GaplessOneMore(ops: seq<Timed>, i: nat, last: nat, id: string)
    requires i < last < |ops|
    ensures Gapless(ops, i, last + 1, id) <==>
      Gapless(ops, i, last, id) && (RouteAnswered(ops, last, id) ==> Covered(ops, i, last, id, ops[last].at))
  {
  }

  lemma {:induction false} CoveredOneMore(ops: seq<Timed>, i: nat, last: nat, id: string, u: int)
    requires Clocked(ops) && i <= last < |ops|
    ensures Covered(ops, i, last + 1, id, u) <==>
      if RouteAnswered(ops, last, id) then u <= ops[last].at + 60000 else Covered(ops, i, last, id, u)
  {
    if RouteAnswered(ops, last, id) {
      forall k | i <= k < last ensures ops[k].at <= ops[last].at {
      }
    }
  }

  lemma {:induction false} NoGapOneMore(ops: seq<Timed>, i: nat, last: nat, id: string, u: int)
    requires Clocked(ops) && i < last < |ops|
    ensures NoGap(ops, i, last + 1, id, u) <==>
      if RouteAnswered(ops, last, id) then NoGap(ops, i, last, id, ops[last].at) && u <= ops[last].at + 60000
      else NoGap(ops, i, last, id, u)
  {
    CoveredOneMore(ops, i, last, id, u);
    GaplessOneMore(ops, i, last, id);
  }

  lemma {:induction false} RouteAtAfter(ops: seq<Timed>, last: nat, id: string, nonce: string, u: int)
    requires last < |ops| && ops[last].at <= u && id != nonce
    requires ops[last].op.SetRoute? ==> ops[last].op.route.nonce != nonce
    ensures RouteAt(Elapsed(StoreAfter(ops, last + 1), u), id, nonce) ==
      if RouteAnswered(ops, last, id) then
        if u <= ops[last].at + 60000 then RouteAt(Elapsed(StoreAfter(ops, last), ops[last].at), id, nonce) else None
      else RouteAt(Elapsed(StoreAfter(ops, last), u), id, nonce)
  {
    var s, s' := StoreAfter(ops, last), StoreAfter(ops, last + 1);
    ReadsAfterElapse(s, u);
    ReadsAfterElapse(s, ops[last].at);
    ReadsAfterElapse(s', u);
    RouteAfterStep(s, ops[last], id, nonce);
    HashEntryAfter(ops, last, id);
    if ops[last].op == RemoveRoute(id) {
      HashKeepsDeadline(s, ops[last], id, nonce);
    }
  }

  /** Deleting a field leaves the deadline of what is left. */
  lemma {:induction false} HashKeepsDeadline(s: Store, timed: Timed, id: string, nonce: string)
    requires timed.op == RemoveRoute(id) && id != nonce
    ensures var left, s' := Elapsed(s, timed.at), RedisStep(s, timed);
      RouteAt(left, id, nonce).Some? ==>
        RoutesKey(id) in s' && RoutesKey(id) in left && s'[RoutesKey(id)].expiresAt == left[RoutesKey(id)].expiresAt
  {
    var left := Elapsed(s, timed.at);
    ReadsAfterRemoveRoute(left, id);
  }

  /** A nonce stored under a conversation, and not its id, is found at `u`, under that conversation and as stored, if
      and only if routes kept being stored there without a gap of more than 60000 ms. */
  lemma {:induction false} NonceFoundIff(ops: seq<Timed>, i: nat, n: nat, id: string, nonce: string, u: int)
    requires Clocked(ops) && i < n <= |ops| && forall j :: 0 <= j < n ==> ops[j].at <= u
    requires RouteAnswered(ops, i, id) && ops[i].op.route.nonce == nonce && id != nonce
    requires forall j :: i < j < n && ops[j].op.SetRoute? ==> ops[j].op.route.nonce != nonce
    ensures RouteAt(Elapsed(StoreAfter(ops, n), u), id, nonce) ==
      if NoGap(ops, i, n, id, u) then Some(ops[i].op.route) else None
    decreases n
  {
    var last: nat := n - 1;
    if i == last {
      HashEntryAfter(ops, i, id);
      CoveredOneMore(ops, i, i, id, u);
    } else {
      RouteAtAfter(ops, last, id, nonce, u);
      NoGapOneMore(ops, i, last, id, u);
      NonceFoundIff(ops, i, last, id, nonce, if RouteAnswered(ops, last, id) then ops[last].at else u);
    }
  }

  /** For instance a second route at 40000 keeps the first one until 100000. */
  lemma {:induction false} SecondRouteProlongsFirst(conversation: Conversation, first: Route, second: Route, u: int)
    requires first.nonce != second.nonce && conversation.id != first.nonce && 40000 <= u
    ensures var id := conversation.id;
      var ops := [Timed(SetConversation(conversation), 0), Timed(SetRoute(id, first), 0),
                  Timed(SetRoute(id, second), 40000)];
      RouteAt(Elapsed(StoreAfter(ops, 3), u), id, first.nonce) == if u <= 100000 then Some(first) else None
  {
    var id := conversation.id;
    var ops := [Timed(SetConversation(conversation), 0), Timed(SetRoute(id, first), 0),
                Timed(SetRoute(id, second), 40000)];
    BothAnswered(ops, id);
    NonceFoundIff(ops, 1, 3, id, first.nonce, u);
    NoGapOneMore(ops, 1, 2, id, u);
    CoveredOneMore(ops, 1, 1, id, 40000);
  }

  lemma {:induction false} BothAnswered(ops: seq<Timed>, id: string)
    requires |ops| == 3 && Clocked(ops) && ops[2].at <= ops[0].at + 60000
    requires ops[0].op.SetConversation? && ops[0].op.conversation.id == id
    requires ops[1].op.SetRoute? && ops[1].op.id == id && ops[2].op.SetRoute? && ops[2].op.id == id
    ensures RouteAnswered(ops, 1, id) && RouteAnswered(ops, 2, id)
  {
    TalkFoundIff(ops, 1, id, ops[1].at);
    assert TalkKept(ops, 0, 1, id, ops[1].at);
    TalkFoundIff(ops, 2, id, ops[2].at);
    assert TalkKept(ops, 0, 2, id, ops[2].at);
  }
}
