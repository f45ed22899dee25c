/** Time in the route table: how old a visible route or conversation can be. */
module RouteTiming {
  import opened Models
  import opened RouteTable

  const SWEEP_PERIOD: int := 30000

  datatype Op =
    | SetConversation(conversation: Conversation)
    | RemoveConversation(id: string)
    | SetRoute(id: string, route: Route)
    | RemoveRoute(nonce: string)
    | Sweep

  /** The table at a time, with the last sweep and when each route and each conversation was set. */
  datatype Clock = Clock(
    table: Table, now: int, lastSweep: int, routesSet: map<string, int>, conversationsSet: map<string, int>)

  function Tick(c: Clock, op: Op, at: int): Clock {
    match op
    case SetConversation(conversation) =>
      c.(table := RouteTable.SetConversation(c.table, conversation, at), now := at,
         conversationsSet := c.conversationsSet[conversation.id := at])
    case RemoveConversation(id) => c.(table := RouteTable.RemoveConversation(c.table, id), now := at)
    case SetRoute(id, route) =>
      c.(table := RouteTable.SetRoute(c.table, id, route, at), now := at, routesSet := c.routesSet[route.nonce := at])
    case RemoveRoute(nonce) => c.(table := RouteTable.RemoveRoute(c.table, nonce), now := at)
    case Sweep => c.(table := Swept(c.table, at), now := at, lastSweep := at)
  }

  datatype Timed = Timed(op: Op, at: int)

  function RunClock(c: Clock, ops: seq<Timed>): Clock
    decreases |ops|
  {
    if ops == [] then c else RunClock(Tick(c, ops[0].op, ops[0].at), ops[1..])
  }

  /** The clock is monotone and no sweep is late. */
  predicate OnTimeRun(c: Clock, ops: seq<Timed>)
    decreases |ops|
  {
    ops != [] ==>
      c.now <= ops[0].at <= c.lastSweep + SWEEP_PERIOD && OnTimeRun(Tick(c, ops[0].op, ops[0].at), ops[1..])
  }

  function Begin(at: int): Clock {
    Clock(EMPTY, at, at, map[], map[])
  }

  ghost predicate DatedMap<T>(m: map<string, Expiring<T>>, whenSet: map<string, int>, ttl: int, lastSweep: int,
                              now: int)
  {
    forall k :: k in m ==>
      k in whenSet && whenSet[k] <= now && m[k].expiresAt == whenSet[k] + ttl && lastSweep <= m[k].expiresAt
  }

  ghost predicate Dated(c: Clock) {
    && c.lastSweep <= c.now
    && DatedMap(c.table.routes, c.routesSet, ROUTES_EXPIRATION_TIME, c.lastSweep, c.now)
    && DatedMap(c.table.conversations, c.conversationsSet, CONVERSATIONS_EXPIRATION_TIME, c.lastSweep, c.now)
  }

  lemma {:induction false} TickDated(c: Clock, op: Op, at: int)
    requires Dated(c) && c.now <= at
    ensures Dated(Tick(c, op, at))
  {
  }

  lemma {:induction false} RunDated(c: Clock, ops: seq<Timed>)
    requires Dated(c) && OnTimeRun(c, ops)
    ensures Dated(RunClock(c, ops))
    decreases |ops|
  {
    if ops != [] {
      TickDated(c, ops[0].op, ops[0].at);
      RunDated(Tick(c, ops[0].op, ops[0].at), ops[1..]);
    }
  }

  /** A route or conversation visible at time u was set at u - 90000 or later: pushing routes onto a conversation
      does not prolong it. */
  lemma {:induction false} RouteRetention(start: int, ops: seq<Timed>, u: int, key: string)
    requires OnTimeRun(Begin(start), ops)
    requires var c := RunClock(Begin(start), ops);
      c.now <= u <= c.lastSweep + SWEEP_PERIOD
    ensures var c := RunClock(Begin(start), ops);
      && (key in c.table.routes ==> key in c.routesSet && u - 90000 <= c.routesSet[key] <= u)
      && (key in c.table.conversations ==> key in c.conversationsSet && u - 90000 <= c.conversationsSet[key] <= u)
  {
    RunDated(Begin(start), ops);
  }

  /** And no sooner: with a sweep every 30000 ms a conversation and a route set at 0 are still there at 90000. */
  lemma {:induction false} RouteRetentionTight(conversation: Conversation, route: Route)
    ensures var ops := [Timed(SetConversation(conversation), 0), Timed(SetRoute(conversation.id, route), 0),
                        Timed(Sweep, 30000), Timed(Sweep, 60000)];
      var c := RunClock(Begin(0), ops);
      && OnTimeRun(Begin(0), ops)
      && conversation.id in c.table.conversations
      && conversation.id in c.conversationsSet && c.conversationsSet[conversation.id] == 0
      && route.nonce in c.table.routes
      && route.nonce in c.routesSet && c.routesSet[route.nonce] == 0
      && c.now <= 90000 <= c.lastSweep + SWEEP_PERIOD
  {
    var ops := [Timed(SetConversation(conversation), 0), Timed(SetRoute(conversation.id, route), 0),
                Timed(Sweep, 30000), Timed(Sweep, 60000)];
    assert ops[1..][1..] == ops[2..] && ops[2..][1..] == ops[3..] && ops[3..][1..] == [];
    var c1 := Tick(Begin(0), ops[0].op, 0);
    var c2 := Tick(c1, ops[1].op, 0);
    var c3 := Tick(c2, Sweep, 30000);
    var c4 := Tick(c3, Sweep, 60000);
    assert RunClock(c3, ops[3..]) == RunClock(c4, []) == c4;
    assert RunClock(c1, ops[1..]) == RunClock(c2, ops[2..]) == RunClock(c3, ops[3..]);
    assert OnTimeRun(c3, ops[3..]) && OnTimeRun(c2, ops[2..]) && OnTimeRun(c1, ops[1..]);
  }
}
