/** The locks the two in-memory repositories take, call by call, and exactly when their tasks can get stuck. */
module RepositoryLocks {
  import opened Models
  import opened Locks
  import RouteTable
  import SessionTable

  datatype Guard = Guard(lock: LockId, mode: Mode)

  /** Take the guards one inside the other, touching the data after each, and drop them innermost first. */
  function Nest(guards: seq<Guard>): Script
    decreases |guards|
  {
    if guards == [] then []
    else [Acquire(guards[0].lock, guards[0].mode), Access] + Nest(guards[1..]) + [Drop(guards[0].lock)]
  }

  /** Nests one after the other. */
  function Sequence(nests: seq<seq<Guard>>): Script
    decreases |nests|
  {
    if nests == [] then [] else Nest(nests[0]) + Sequence(nests[1..])
  }

  ghost predicate Rising(guards: seq<Guard>, rank: LockId -> nat, locks: nat) {
    && (forall i :: 0 <= i < |guards| ==> guards[i].lock < locks)
    && (forall i, j :: 0 <= i < j < |guards| ==> rank(guards[i].lock) < rank(guards[j].lock))
  }

  lemma {:induction false} WrapOrdered(guard: Guard, inner: Script, rest: Script, held: set<LockId>,
                                       rank: LockId -> nat, locks: nat)
    requires guard.lock < locks && forall h :: h in held ==> rank(h) < rank(guard.lock)
    requires Ordered(inner + ([Drop(guard.lock)] + rest), held + {guard.lock}, rank, locks)
    ensures Ordered([Acquire(guard.lock, guard.mode), Access] + inner + [Drop(guard.lock)] + rest, held, rank, locks)
  {
    var tail := inner + ([Drop(guard.lock)] + rest);
    var touched := [Access] + tail;
    assert touched[1..] == tail;
    var script := [Acquire(guard.lock, guard.mode)] + touched;
    assert script[1..] == touched;
    assert script == [Acquire(guard.lock, guard.mode), Access] + inner + [Drop(guard.lock)] + rest;
  }

  lemma {:induction false} NestOrdered(guards: seq<Guard>, rest: Script, held: set<LockId>, rank: LockId -> nat,
                                       locks: nat)
    requires Rising(guards, rank, locks) && Ordered(rest, held, rank, locks)
    requires forall h, i :: h in held && 0 <= i < |guards| ==> rank(h) < rank(guards[i].lock)
    ensures Ordered(Nest(guards) + rest, held, rank, locks)
    decreases |guards|
  {
    if guards == [] {
      assert Nest(guards) + rest == rest;
    } else {
      var lock := guards[0].lock;
      var after := [Drop(lock)] + rest;
      assert after[1..] == rest && held + {lock} - {lock} == held;
      NestOrdered(guards[1..], after, held + {lock}, rank, locks);
      WrapOrdered(guards[0], Nest(guards[1..]), rest, held, rank, locks);
    }
  }

  lemma {:induction false} SequenceOrdered(nests: seq<seq<Guard>>, rank: LockId -> nat, locks: nat)
    requires forall nest :: nest in nests ==> Rising(nest, rank, locks)
    ensures Ordered(Sequence(nests), {}, rank, locks)
    decreases |nests|
  {
    if nests != [] {
      SequenceOrdered(nests[1..], rank, locks);
      NestOrdered(nests[0], Sequence(nests[1..]), {}, rank, locks);
    }
  }

  // ----- The route repository: routes before conversations

  const ROUTES: LockId := 0
  const CONVERSATIONS: LockId := 1

  datatype RouteCall =
    | SetConversation | RemoveConversation | GetConversation
    | SetRoute | GetRoute | RemoveRoute | SweepRoutes

  function RouteGuards(call: RouteCall): seq<Guard> {
    match call
    case SetConversation => [Guard(CONVERSATIONS, Write)]
    case RemoveConversation => [Guard(CONVERSATIONS, Write)]
    case GetConversation => [Guard(CONVERSATIONS, Read)]
    case SetRoute => [Guard(ROUTES, Write), Guard(CONVERSATIONS, Write)]
    case GetRoute => [Guard(ROUTES, Read)]
    case RemoveRoute => [Guard(ROUTES, Write)]
    case SweepRoutes => [Guard(ROUTES, Write), Guard(CONVERSATIONS, Write)]
  }

  function RouteNests(calls: seq<RouteCall>): seq<seq<Guard>> {
    if calls == [] then [] else [RouteGuards(calls[0])] + RouteNests(calls[1..])
  }

  function RouteTasks(tasks: seq<seq<RouteCall>>): (scripts: seq<Script>)
    ensures |scripts| == |tasks|
    ensures forall i :: 0 <= i < |tasks| ==> scripts[i] == Sequence(RouteNests(tasks[i]))
  {
    if tasks == [] then [] else [Sequence(RouteNests(tasks[0]))] + RouteTasks(tasks[1..])
  }

  lemma {:induction false} RouteNestsRising(calls: seq<RouteCall>)
    ensures forall nest :: nest in RouteNests(calls) ==> Rising(nest, l => l, 2)
    decreases |calls|
  {
    if calls != [] {
      RouteNestsRising(calls[1..]);
      assert Rising(RouteGuards(calls[0]), l => l, 2);
    }
  }

  /** Any number of tasks, each making any sequence of route repository calls and sweeps: in every reachable
      state someone can move until all are done, no run outlasts its work, and writers are alone. */
  lemma {:induction false} RouteRepositoryNeverStuck(tasks: seq<seq<RouteCall>>, schedule: seq<nat>)
    requires Possible(Started(RouteTasks(tasks), 2), schedule)
    ensures !Stuck(After(Started(RouteTasks(tasks), 2), schedule))
    ensures Exclusive(After(Started(RouteTasks(tasks), 2), schedule))
    ensures |schedule| <= Work(Started(RouteTasks(tasks), 2).tasks)
  {
    var rank: LockId -> nat := l => l;
    forall i | 0 <= i < |tasks| ensures Ordered(RouteTasks(tasks)[i], {}, rank, 2) {
      RouteNestsRising(tasks[i]);
      assert forall nest :: nest in RouteNests(tasks[i]) ==> Rising(nest, rank, 2);
      SequenceOrdered(RouteNests(tasks[i]), rank, 2);
    }
    OrderedTasksNeverStuck(RouteTasks(tasks), 2, schedule, rank, 2);
    WorkBoundsSchedule(Started(RouteTasks(tasks), 2), schedule);
  }

  // ----- A call has a guard on every map it touches, for writing where it changes it

  ghost predicate RouteCallDoes(call: RouteCall, t: RouteTable.Table, t': RouteTable.Table) {
    match call
    case SetConversation => exists conversation, now :: t' == RouteTable.SetConversation(t, conversation, now)
    case RemoveConversation => exists id :: t' == RouteTable.RemoveConversation(t, id)
    case SetRoute => exists id, route, now :: t' == RouteTable.SetRoute(t, id, route, now)
    case RemoveRoute => exists nonce :: t' == RouteTable.RemoveRoute(t, nonce)
    case SweepRoutes => exists now :: t' == RouteTable.Swept(t, now)
    case _ => t' == t
  }

  lemma {:induction false} RouteWritesGuarded(call: RouteCall, t: RouteTable.Table, t': RouteTable.Table)
    requires RouteCallDoes(call, t, t')
    ensures t'.routes != t.routes ==> Guard(ROUTES, Write) in RouteGuards(call)
    ensures t'.conversations != t.conversations ==> Guard(CONVERSATIONS, Write) in RouteGuards(call)
  {
  }

  ghost predicate SameGuardedRoutes(call: RouteCall, t: RouteTable.Table, t': RouteTable.Table) {
    && ((exists g :: g in RouteGuards(call) && g.lock == ROUTES) ==> t'.routes == t.routes)
    && ((exists g :: g in RouteGuards(call) && g.lock == CONVERSATIONS) ==> t'.conversations == t.conversations)
  }

  /** What a call answers depends on the maps it has a guard on, and on no other. */
  lemma {:induction false} RouteReadsGuarded(call: RouteCall, t: RouteTable.Table, t': RouteTable.Table, id: string,
                                             route: Route)
    requires SameGuardedRoutes(call, t, t')
    ensures call == GetRoute ==> RouteTable.Lookup(t'.routes, route.nonce) == RouteTable.Lookup(t.routes, route.nonce)
    ensures call == GetConversation ==>
      RouteTable.Lookup(t'.conversations, id) == RouteTable.Lookup(t.conversations, id)
    ensures call == SetConversation ==> (id in t'.conversations <==> id in t.conversations)
    ensures call == SetRoute ==> RouteTable.SetRouteAnswer(t', id, route) == RouteTable.SetRouteAnswer(t, id, route)
  {
    assert call == GetRoute ==> RouteGuards(call)[0].lock == ROUTES;
    assert call == GetConversation || call == SetConversation ==> RouteGuards(call)[0].lock == CONVERSATIONS;
    assert call == SetRoute ==> RouteGuards(call)[0].lock == ROUTES && RouteGuards(call)[1].lock == CONVERSATIONS;
  }

  // ----- The session repository

  const SESSIONS: LockId := 0
  const CLIENTS: LockId := 1
  const CONTROLLERS: LockId := 2
  const PROXIES: LockId := 3

  /** The calls by the locks they end up taking: a logout or a client lookup stops early when it misses. */
  datatype SessionCall =
    | SetSession(component: Component)
    | GetSession
    | RemoveMissing | RemoveFound
    | GetClientMissing | GetClientFound
    | GetProxies
    | Count(component: Component)
    | SweepSessions

  function IndexLock(component: Component): LockId {
    match component
    case Client => CLIENTS
    case Controller => CONTROLLERS
    case Proxy => PROXIES
  }

  function SessionGuards(call: SessionCall): seq<seq<Guard>> {
    match call
    case SetSession(component) => [[Guard(IndexLock(component), Write)], [Guard(SESSIONS, Write)]]
    case GetSession => [[Guard(SESSIONS, Write)]]
    case RemoveMissing => [[Guard(SESSIONS, Write)]]
    case RemoveFound => [[Guard(SESSIONS, Write), Guard(CLIENTS, Write)]]
    case GetClientMissing => [[Guard(CLIENTS, Read)]]
    case GetClientFound => [[Guard(CLIENTS, Read), Guard(SESSIONS, Read)]]
    case GetProxies => [[Guard(PROXIES, Read), Guard(SESSIONS, Read)]]
    case Count(component) => [[Guard(IndexLock(component), Read)]]
    case SweepSessions =>
      [[Guard(SESSIONS, Write), Guard(CLIENTS, Write), Guard(CONTROLLERS, Write), Guard(PROXIES, Write)]]
  }

  ghost predicate SessionCallDoes(call: SessionCall, t: SessionTable.Table, t': SessionTable.Table) {
    match call
    case SetSession(component) =>
      exists info: SessionInfo, now :: info.component == component && t' == SessionTable.Set(t, info, now)
    case GetSession => exists key, now :: t' == SessionTable.Renewed(t, key, now)
    case RemoveMissing => exists key :: key !in t.sessions && t' == SessionTable.Removed(t, key)
    case RemoveFound => exists key :: key in t.sessions && t' == SessionTable.Removed(t, key)
    case SweepSessions => exists now :: t' == SessionTable.Swept(t, now)
    case _ => t' == t
  }

  ghost predicate WritesUnder(call: SessionCall, lock: LockId) {
    exists nest :: nest in SessionGuards(call) && Guard(lock, Write) in nest
  }

  lemma {:induction false} SessionWritesGuarded(call: SessionCall, t: SessionTable.Table, t': SessionTable.Table)
    requires SessionCallDoes(call, t, t')
    ensures t'.sessions != t.sessions ==> WritesUnder(call, SESSIONS)
    ensures t'.clients != t.clients ==> WritesUnder(call, CLIENTS)
    ensures t'.controllers != t.controllers ==> WritesUnder(call, CONTROLLERS)
    ensures t'.proxies != t.proxies ==> WritesUnder(call, PROXIES)
  {
    match call
    case SetSession(_) =>
      HasGuard(call, 0, 0);
      HasGuard(call, 1, 0);
    case GetSession => HasGuard(call, 0, 0);
    case RemoveFound =>
      HasGuard(call, 0, 0);
      HasGuard(call, 0, 1);
    case SweepSessions =>
      HasGuard(call, 0, 0);
      HasGuard(call, 0, 1);
      HasGuard(call, 0, 2);
      HasGuard(call, 0, 3);
    case _ =>
  }

  lemma {:induction false} HasGuard(call: SessionCall, i: nat, k: nat)
    requires i < |SessionGuards(call)| && k < |SessionGuards(call)[i]|
    ensures SessionGuards(call)[i][k].mode == Write ==> WritesUnder(call, SessionGuards(call)[i][k].lock)
    ensures TouchesUnder(call, SessionGuards(call)[i][k].lock)
  {
    assert SessionGuards(call)[i] in SessionGuards(call) && SessionGuards(call)[i][k] in SessionGuards(call)[i];
  }

  ghost predicate TouchesUnder(call: SessionCall, lock: LockId) {
    exists nest, guard :: nest in SessionGuards(call) && guard in nest && guard.lock == lock
  }

  ghost predicate SameGuardedSessions(call: SessionCall, t: SessionTable.Table, t': SessionTable.Table) {
    && (TouchesUnder(call, SESSIONS) ==> t'.sessions == t.sessions)
    && (TouchesUnder(call, CLIENTS) ==> t'.clients == t.clients)
    && (TouchesUnder(call, CONTROLLERS) ==> t'.controllers == t.controllers)
    && (TouchesUnder(call, PROXIES) ==> t'.proxies == t.proxies)
  }

  /** What a call answers, and whether it stops at a miss, depends on the maps it has a guard on, and on no other. */
  lemma {:induction false} SessionReadsGuarded(call: SessionCall, t: SessionTable.Table, t': SessionTable.Table,
                                               key: string, uid: string, order: seq<string>)
    requires SameGuardedSessions(call, t, t')
    ensures call in {GetSession, RemoveMissing, RemoveFound} ==>
      SessionTable.Lookup(t', key) == SessionTable.Lookup(t, key)
    ensures call == GetClientMissing ==> (uid in t'.clients <==> uid in t.clients)
    ensures call == GetClientFound ==> SessionTable.ClientOf(t', uid) == SessionTable.ClientOf(t, uid)
    ensures call == GetProxies ==>
      SessionTable.ProxiesIn(t', key, order) == SessionTable.ProxiesIn(t, key, order)
    ensures call == Count(Client) ==> |t'.clients| == |t.clients|
    ensures call == Count(Proxy) ==> |t'.proxies| == |t.proxies|
    ensures call == Count(Controller) ==> |t'.controllers| == |t.controllers|
  {
    if |SessionGuards(call)| > 0 {
      var nest := SessionGuards(call)[0];
      assert nest in SessionGuards(call);
      assert |nest| > 0 ==> nest[0] in nest;
      assert |nest| > 1 ==> nest[1] in nest;
    }
    if call == GetProxies {
      SameListed(t, t', key, order);
    }
  }

  lemma {:induction false} SameListed(t: SessionTable.Table, t': SessionTable.Table, key: string, order: seq<string>)
    requires t'.sessions == t.sessions && t'.proxies == t.proxies
    ensures SessionTable.ProxiesIn(t', key, order) == SessionTable.ProxiesIn(t, key, order)
    decreases |order|
  {
    if order != [] {
      SameListed(t, t', key, order[..|order| - 1]);
    }
  }

  function SessionNests(calls: seq<SessionCall>): seq<seq<Guard>> {
    if calls == [] then [] else SessionGuards(calls[0]) + SessionNests(calls[1..])
  }

  function SessionTasks(tasks: seq<seq<SessionCall>>): (scripts: seq<Script>)
    ensures |scripts| == |tasks|
    ensures forall i :: 0 <= i < |tasks| ==> scripts[i] == Sequence(SessionNests(tasks[i]))
  {
    if tasks == [] then [] else [Sequence(SessionNests(tasks[0]))] + SessionTasks(tasks[1..])
  }

  function SessionStart(tasks: seq<seq<SessionCall>>): State {
    Started(SessionTasks(tasks), 4)
  }

  ghost predicate Makes(tasks: seq<seq<SessionCall>>, kinds: set<SessionCall>) {
    forall i, k :: 0 <= i < |tasks| && 0 <= k < |tasks[i]| ==> tasks[i][k] in kinds
  }

  /** Some tasks making only calls of these kinds can be scheduled into a state where nobody moves again. */
  ghost predicate CanGetStuck(kinds: set<SessionCall>) {
    exists tasks, s :: Makes(tasks, kinds) && Reachable(SessionStart(tasks), s) && Stuck(s)
  }

  /** The kinds of calls that take the same two locks in opposite orders. */
  predicate Crossing(kinds: set<SessionCall>) {
    || (GetClientFound in kinds && RemoveFound in kinds)
    || (GetClientFound in kinds && SweepSessions in kinds)
    || (GetProxies in kinds && SweepSessions in kinds)
  }

  /** A lock order for each family of kinds without a crossing. */
  function RankFor(kinds: set<SessionCall>): LockId -> nat {
    if GetClientFound !in kinds && GetProxies !in kinds then l => l
    else if GetClientFound in kinds then
      l => if l == CLIENTS then 0 else if l == PROXIES then 1 else if l == SESSIONS then 2 else 3
    else
      l => if l == PROXIES then 0 else if l == SESSIONS then 1 else if l == CLIENTS then 2 else 3
  }

  lemma {:induction false} SessionNestsRising(calls: seq<SessionCall>, kinds: set<SessionCall>)
    requires !Crossing(kinds)
    requires forall c :: c in calls ==> c in kinds
    ensures forall nest :: nest in SessionNests(calls) ==> Rising(nest, RankFor(kinds), 4)
    decreases |calls|
  {
    if calls != [] {
      SessionNestsRising(calls[1..], kinds);
      assert calls[0] in kinds;
      forall nest | nest in SessionGuards(calls[0]) ensures Rising(nest, RankFor(kinds), 4) {
      }
    }
  }

  lemma {:induction false} NoCrossingNeverStuck(tasks: seq<seq<SessionCall>>, kinds: set<SessionCall>,
                                                schedule: seq<nat>)
    requires !Crossing(kinds) && Makes(tasks, kinds) && Possible(SessionStart(tasks), schedule)
    ensures !Stuck(After(SessionStart(tasks), schedule))
  {
    var scripts := SessionTasks(tasks);
    forall i | 0 <= i < |scripts| ensures Ordered(scripts[i], {}, RankFor(kinds), 4) {
      SessionNestsRising(tasks[i], kinds);
      SequenceOrdered(SessionNests(tasks[i]), RankFor(kinds), 4);
    }
    OrderedTasksNeverStuck(scripts, 4, schedule, RankFor(kinds), 4);
  }

  // ----- The three crossings, played out

  lemma {:induction false} TwoTasks(first: SessionCall, second: SessionCall, nest0: seq<Guard>, nest1: seq<Guard>)
    requires SessionGuards(first) == [nest0] && SessionGuards(second) == [nest1]
    ensures SessionStart([[first], [second]]) ==
      State([Task(Nest(nest0), false, map[]), Task(Nest(nest1), false, map[])], [[], [], [], []])
  {
    OneCall(first, nest0);
    OneCall(second, nest1);
  }

  lemma {:induction false} OneCall(call: SessionCall, nest: seq<Guard>)
    requires SessionGuards(call) == [nest]
    ensures Sequence(SessionNests([call])) == Nest(nest)
  {
    assert [call][1..] == [] && [nest] + [] == [nest] && [nest][1..] == [];
    assert SessionNests([call]) == [nest];
    assert Sequence([nest]) == Nest(nest) + Sequence([]);
  }

  /** A lookup in one index meets a writer that takes the sessions first and asks for that index later, after
      the locks between. */
  lemma {:induction false} LookupMeetsWriter(s: State, index: LockId, between: seq<Guard>, more: Script)
    returns (stuck: State)
    requires |s.tasks| == 2 && |s.queues| == 4 && index < 4 && index != SESSIONS
    requires forall l :: 0 <= l < 4 ==> s.queues[l] == []
    requires s.tasks[0] == Task(Nest([Guard(index, Read), Guard(SESSIONS, Read)]), false, map[])
    requires s.tasks[1] == Task([Acquire(SESSIONS, Write), Access] + Taking(between) + more, false, map[])
    requires more != [] && more[0] == Acquire(index, Write)
    requires forall i :: 0 <= i < |between| ==> between[i].lock !in {SESSIONS, index} && between[i].lock < 4
    requires forall i, j :: 0 <= i < j < |between| ==> between[i].lock != between[j].lock
    ensures Reachable(s, stuck) && Stuck(stuck)
  {
    var rest0 := Nest([Guard(SESSIONS, Read)]) + [Drop(index)];
    assert [Guard(index, Read), Guard(SESSIONS, Read)][1..] == [Guard(SESSIONS, Read)];
    assert s.tasks[0].script == [Acquire(index, Read), Access] + rest0;
    var s1 := s.(tasks := s.tasks[0 := Task(rest0, false, map[index := Read])]);
    var rest1 := Taking(between) + more;
    assert s.tasks[1].script == [Acquire(SESSIONS, Write), Access] + rest1;
    var s2 := s1.(tasks := s1.tasks[1 := Task(rest1, false, map[SESSIONS := Write])]);
    stuck := TakeBetweenThenEmbrace(s2, index, between, more);
    ReachTaken(s1, 1, SESSIONS, Write, rest1, stuck);
    ReachTaken(s, 0, index, Read, rest0, stuck);
  }

  function Taking(guards: seq<Guard>): Script
    decreases |guards|
  {
    if guards == [] then [] else [Acquire(guards[0].lock, guards[0].mode), Access] + Taking(guards[1..])
  }

  lemma {:induction false} TakeBetweenThenEmbrace(s: State, index: LockId, between: seq<Guard>, more: Script)
    returns (stuck: State)
    requires |s.tasks| == 2 && |s.queues| == 4 && index < 4 && index != SESSIONS
    requires forall l :: 0 <= l < 4 ==> s.queues[l] == []
    requires !s.tasks[0].queued && s.tasks[0].held == map[index := Read]
    requires s.tasks[0].script != [] && s.tasks[0].script[0] == Acquire(SESSIONS, Read)
    requires !s.tasks[1].queued && SESSIONS in s.tasks[1].held && s.tasks[1].held[SESSIONS] == Write
    requires s.tasks[1].script == Taking(between) + more && more != [] && more[0] == Acquire(index, Write)
    requires forall i :: 0 <= i < |between| ==> between[i].lock !in {SESSIONS, index} && between[i].lock < 4
    requires forall i :: 0 <= i < |between| ==> between[i].lock !in s.tasks[1].held
    requires forall i, j :: 0 <= i < j < |between| ==> between[i].lock != between[j].lock
    ensures Reachable(s, stuck) && Stuck(stuck)
    decreases |between|
  {
    if between == [] {
      assert s.tasks[1].script == more;
      stuck := EmbraceGetsStuck(s, SESSIONS, Read, index, Write);
    } else {
      var g, rest := between[0], Taking(between[1..]) + more;
      assert s.tasks[1].script == [Acquire(g.lock, g.mode), Access] + rest;
      var taken := s.(tasks := s.tasks[1 := Task(rest, false, s.tasks[1].held[g.lock := g.mode])]);
      stuck := TakeBetweenThenEmbrace(taken, index, between[1..], more);
      ReachTaken(s, 1, g.lock, g.mode, rest, stuck);
    }
  }

  lemma {:induction false} CrossingPlayedOut(first: SessionCall, second: SessionCall) returns (stuck: State)
    requires (first, second) in
      {(GetClientFound, RemoveFound), (GetClientFound, SweepSessions), (GetProxies, SweepSessions)}
    ensures Reachable(SessionStart([[first], [second]]), stuck) && Stuck(stuck)
  {
    var index := if first == GetClientFound then CLIENTS else PROXIES;
    TwoTasks(first, second, [Guard(index, Read), Guard(SESSIONS, Read)], SessionGuards(second)[0]);
    var guards := SessionGuards(second)[0];
    var between := if first == GetClientFound then [] else [Guard(CLIENTS, Write), Guard(CONTROLLERS, Write)];
    var k := 1 + |between|;
    var more := NestAfter(guards, k);
    assert guards[..k] == [Guard(SESSIONS, Write)] + between;
    assert guards[..k][1..] == between;
    stuck := LookupMeetsWriter(SessionStart([[first], [second]]), index, between, more);
  }

  /** A nest starts by taking its first k guards. */
  lemma {:induction false} NestAfter(guards: seq<Guard>, k: nat) returns (more: Script)
    requires k < |guards|
    ensures Nest(guards) == Taking(guards[..k]) + more
    ensures more != [] && more[0] == Acquire(guards[k].lock, guards[k].mode)
    decreases k
  {
    if k == 0 {
      more := Nest(guards);
      assert guards[..0] == [];
    } else {
      var deeper := NestAfter(guards[1..], k - 1);
      more := deeper + [Drop(guards[0].lock)];
      assert guards[..k][1..] == guards[1..][..k - 1];
    }
  }

  /** The session repository gets stuck for some tasks and schedule if and only if the calls include a crossing:
      a client lookup beside a logout or a sweep, or a proxy lookup beside a sweep. */
  lemma {:induction false} SessionRepositoryStuckIff(kinds: set<SessionCall>)
    ensures CanGetStuck(kinds) <==> Crossing(kinds)
  {
    if Crossing(kinds) {
      var first := if GetClientFound in kinds && (RemoveFound in kinds || SweepSessions in kinds)
        then GetClientFound else GetProxies;
      var second := if first == GetClientFound && RemoveFound in kinds then RemoveFound else SweepSessions;
      var stuck := CrossingPlayedOut(first, second);
      assert Makes([[first], [second]], kinds);
    } else if CanGetStuck(kinds) {
      var tasks, s :| Makes(tasks, kinds) && Reachable(SessionStart(tasks), s) && Stuck(s);
      var schedule :| Possible(SessionStart(tasks), schedule) && After(SessionStart(tasks), schedule) == s;
      NoCrossingNeverStuck(tasks, kinds, schedule);
    }
  }
}
