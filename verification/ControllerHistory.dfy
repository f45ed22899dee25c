/** The controller's RPCs as operations on the route repository: what is proved about every run of the
    repository holds of every run of the RPCs. */
module ControllerHistory {
  import opened Models
  import opened RouteHistory
  import opened Controller

  /** The repository operations an RPC comes down to, in order. */
  function OpsOf(c: Tables, call: Call): seq<Op> {
    match call
    case Initializing(key, to, id, now) =>
      if key !in c.sessions.sessions then []
      else [RouteHistory.Initialize(
        Conversation(id, c.sessions.sessions[key].value.uid, Target(to), RANDOM_ROUTE_STRATEGY, []), now)]
    case Routing(key, id, choice, now) =>
      if key !in c.sessions.sessions || id !in c.routes.conversations then []
      else
        var conversation := c.routes.conversations[id].value;
        (match NextHop(c, key, conversation, choice)
         case None => []
         case Some(hop) => [StoreRoute(id, RouteTo(hop, choice, HasReachedFinalRoute(conversation)), now)])
    case Redeeming(key, id, nonce, now) =>
      if key !in c.sessions.sessions || id !in c.routes.conversations then []
      else if nonce in c.routes.routes && c.routes.routes[nonce].value.endRoute
      then [RouteHistory.Redeem(nonce), Finalize(id)]
      else [RouteHistory.Redeem(nonce)]
    case OnSessions(_) => []
    case SweepingRoutes(now) => [Sweep(now)]
  }

  function OpsOfAll(c: Tables, calls: seq<Call>): seq<Op>
    decreases |calls|
  {
    if calls == [] then [] else OpsOf(c, calls[0]) + OpsOfAll(Serve(c, calls[0]), calls[1..])
  }

  lemma {:induction false} RunConcat(h: History, a: seq<Op>, b: seq<Op>, nonce: string)
    ensures Run(h, a + b) == Run(Run(h, a), b)
    ensures Successes(h, a + b, nonce) == Successes(h, a, nonce) + Successes(Run(h, a), b, nonce)
    ensures LegalRun(h, a + b) ==> LegalRun(h, a) && LegalRun(Run(h, a), b)
    decreases |a|
  {
    if a == [] {
      assert a + b == b;
    } else {
      assert (a + b)[1..] == a[1..] + b && (a + b)[0] == a[0];
      RunConcat(Next(h, a[0]), a[1..], b, nonce);
    }
  }

  /** The RPC changes the route table as its operations do, and a redeem RPC succeeds when its operation does. */
  lemma {:induction false} ServeIsOps(h: History, c: Tables, call: Call, nonce: string)
    requires h.table == c.routes
    ensures Run(h, OpsOf(c, call)).table == Serve(c, call).routes
    ensures Successes(h, OpsOf(c, call), nonce) == if Redeems(c, call, nonce) then 1 else 0
  {
    var ops := OpsOf(c, call);
    if |ops| == 1 {
      assert ops == [ops[0]];
      OneOp(h, ops[0], nonce);
    } else if |ops| == 2 {
      TwoOps(h, ops[0], ops[1], nonce);
      assert ops == [ops[0], ops[1]];
    }
  }

  lemma {:induction false} OneOp(h: History, op: Op, nonce: string)
    ensures Run(h, [op]) == Next(h, op)
    ensures Successes(h, [op], nonce) == if nonce in RouteHistory.Redeems(h, op) then 1 else 0
  {
    assert [op][1..] == [];
  }

  lemma {:induction false} TwoOps(h: History, op: Op, second: Op, nonce: string)
    ensures Run(h, [op, second]) == Next(Next(h, op), second)
    ensures Successes(h, [op, second], nonce) ==
      (if nonce in RouteHistory.Redeems(h, op) then 1 else 0) +
      (if nonce in RouteHistory.Redeems(Next(h, op), second) then 1 else 0)
  {
    assert [op, second][1..] == [second];
    OneOp(Next(h, op), second, nonce);
  }

  predicate Redeems(c: Tables, call: Call, nonce: string) {
    call.Redeeming? && call.nonce == nonce && Controller.Redeem(c, call.key, call.id, nonce, call.now).1.Ok?
  }

  /** How many redeem RPCs for `nonce` succeed. */
  function Redemptions(c: Tables, calls: seq<Call>, nonce: string): nat
    decreases |calls|
  {
    if calls == [] then 0
    else (if Redeems(c, calls[0], nonce) then 1 else 0) + Redemptions(Serve(c, calls[0]), calls[1..], nonce)
  }

  lemma {:induction false} ServeAllIsOps(h: History, c: Tables, calls: seq<Call>, nonce: string)
    requires h.table == c.routes
    ensures Run(h, OpsOfAll(c, calls)).table == ServeAll(c, calls).routes
    ensures Successes(h, OpsOfAll(c, calls), nonce) == Redemptions(c, calls, nonce)
    decreases |calls|
  {
    if calls != [] {
      var ops := OpsOf(c, calls[0]);
      ServeIsOps(h, c, calls[0], nonce);
      RunConcat(h, ops, OpsOfAll(Serve(c, calls[0]), calls[1..]), nonce);
      ServeAllIsOps(Run(h, ops), Serve(c, calls[0]), calls[1..], nonce);
    }
  }

  /** With RPCs as single steps and fresh nonces, whoever redeems what under whichever conversation: a nonce is
      redeemed at most once, and every nonce handed out stays accounted for. */
  lemma {:induction false} RpcsRedeemOnce(calls: seq<Call>, nonce: string)
    requires LegalRun(RouteHistory.START, OpsOfAll(Controller.EMPTY, calls))
    ensures Redemptions(Controller.EMPTY, calls, nonce) <= 1
    ensures var h := Run(RouteHistory.START, OpsOfAll(Controller.EMPTY, calls));
      && h.table == ServeAll(Controller.EMPTY, calls).routes
      && Conserved(h)
      && (Redemptions(Controller.EMPTY, calls, nonce) == 1 <==> nonce in h.redeemed)
  {
    var ops := OpsOfAll(Controller.EMPTY, calls);
    ServeAllIsOps(RouteHistory.START, Controller.EMPTY, calls, nonce);
    RoutesConserved(RouteHistory.START, ops);
    RedeemedOnce(RouteHistory.START, ops, nonce);
  }
}
