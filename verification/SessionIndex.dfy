/** The indexes against a plain scan of the session table: when they agree over a whole run, and exactly
    which removals and sweeps make a stored client unreachable. */
module SessionIndex {
  import opened Models
  import opened SessionTable

  // ----- The reference: scanning the sessions

  function KeysOfKind(t: Table, component: Component): set<string> {
    set k | k in t.sessions && t.sessions[k].value.component == component
  }

  function ScanProxies(t: Table, key: string): set<SessionInfo> {
    set k | k in KeysOfKind(t, Proxy) && k != key :: t.sessions[k].value
  }

  ghost predicate IsStoredClient(t: Table, uid: string, info: SessionInfo) {
    exists k :: k in KeysOfKind(t, Client) && t.sessions[k].value == info && info.uid == uid
  }

  // ----- The invariant of runs without overlapping logins

  type Sessions = map<string, Expiring<SessionInfo>>

  /** A client or proxy session shares its uid with no other stored session. */
  ghost predicate UniqueUids(sessions: Sessions) {
    forall k, k' ::
      (k in sessions && k' in sessions && sessions[k].value.component != Controller &&
       sessions[k].value.uid == sessions[k'].value.uid) ==> k == k'
  }

  ghost predicate Complete(sessions: Sessions, index: Index, component: Component) {
    forall k :: k in sessions && sessions[k].value.component == component ==>
      sessions[k].value.uid in index && index[sessions[k].value.uid] == k
  }

  ghost predicate NoDangling(sessions: Sessions, index: Index) {
    forall u :: u in index ==> index[u] in sessions
  }

  ghost predicate Consistent(t: Table, login: string -> Login) {
    && Sound(t, login)
    && UniqueUids(t.sessions)
    && Complete(t.sessions, t.clients, Client)
    && Complete(t.sessions, t.proxies, Proxy)
    && NoDangling(t.sessions, t.clients)
  }

  /** The uid logging in has no stored session; a controller may store its session again beside its own. */
  ghost predicate NoOverlap(t: Table, op: Op) {
    op.SetOp? ==>
      && op.info.accessKey !in t.sessions
      && forall k :: k in t.sessions && t.sessions[k].value.uid == op.info.uid ==>
        t.sessions[k].value.component == Controller && op.info.component == Controller
  }

  ghost predicate NoOverlapRun(t: Table, ops: seq<Op>, login: string -> Login)
    decreases |ops|
  {
    ops != [] ==> Issued(ops[0], login) && NoOverlap(t, ops[0]) && NoOverlapRun(Apply(t, ops[0]), ops[1..], login)
  }

  lemma {:induction false} SetUnique(t: Table, info: SessionInfo, now: int)
    requires UniqueUids(t.sessions) && NoOverlap(t, SetOp(info, now))
    ensures UniqueUids(Store(t, info, now).sessions)
  {
  }

  lemma {:induction false} SetComplete(t: Table, index: Index, component: Component, info: SessionInfo, now: int)
    requires Complete(t.sessions, index, component) && NoOverlap(t, SetOp(info, now)) && component != Controller
    ensures Complete(Store(t, info, now).sessions, IndexAfter(index, component, info), component)
  {
  }

  lemma {:induction false} SetConsistent(t: Table, info: SessionInfo, now: int, login: string -> Login)
    requires Consistent(t, login) && Issued(SetOp(info, now), login) && NoOverlap(t, SetOp(info, now))
    ensures Consistent(Set(t, info, now), login)
  {
    ApplySound(t, SetOp(info, now), login);
    SetUnique(t, info, now);
    SetComplete(t, t.clients, Client, info, now);
    SetComplete(t, t.proxies, Proxy, info, now);
    SetNoDangling(t, info, now);
    SetParts(t, info, now);
  }

  function IndexAfter(index: Index, component: Component, info: SessionInfo): Index {
    if info.component == component then index[info.uid := info.accessKey] else index
  }

  lemma {:induction false} SetParts(t: Table, info: SessionInfo, now: int)
    ensures var t' := Set(t, info, now);
      && t'.sessions == Store(t, info, now).sessions
      && t'.clients == IndexAfter(t.clients, Client, info)
      && t'.proxies == IndexAfter(t.proxies, Proxy, info)
  {
  }

  lemma {:induction false} SetNoDangling(t: Table, info: SessionInfo, now: int)
    requires NoDangling(t.sessions, t.clients)
    ensures NoDangling(Store(t, info, now).sessions, IndexAfter(t.clients, Client, info))
  {
  }

  /** Dropping some sessions, and the index entries of their uids, keeps an index complete and non-dangling
      as long as no kept session has one of those uids. */
  lemma {:induction false} DropKeepsComplete(sessions: Sessions, index: Index, component: Component, keys: set<string>,
                                             uids: set<string>)
    requires Complete(sessions, index, component)
    requires forall k :: k in sessions && k !in keys && sessions[k].value.component == component ==>
      sessions[k].value.uid !in uids
    ensures Complete(sessions - keys, index - uids, component)
  {
  }

  lemma {:induction false} DropKeepsNoDangling(t: Table, keys: set<string>, uids: set<string>, login: string -> Login)
    requires Sound(t, login) && NoDangling(t.sessions, t.clients)
    requires forall k :: k in keys && k in t.sessions ==> t.sessions[k].value.uid in uids
    ensures NoDangling(t.sessions - keys, t.clients - uids)
  {
    forall u | u in t.clients - uids ensures t.clients[u] in t.sessions - keys {
      assert login(t.clients[u]) == Login(u, Client);
    }
  }

  lemma {:induction false} RemoveConsistent(t: Table, key: string, login: string -> Login)
    requires Consistent(t, login)
    ensures Consistent(Removed(t, key), login)
  {
    ApplySound(t, RemoveOp(key), login);
    if key in t.sessions {
      var uids := {t.sessions[key].value.uid};
      DropKeepsComplete(t.sessions, t.clients, Client, {key}, uids);
      DropKeepsComplete(t.sessions, t.proxies, Proxy, {key}, {});
      assert t.proxies - {} == t.proxies;
      DropKeepsNoDangling(t, {key}, uids, login);
    }
  }

  lemma {:induction false} SweepConsistent(t: Table, now: int, login: string -> Login)
    requires Consistent(t, login)
    ensures Consistent(Swept(t, now), login)
  {
    ApplySound(t, SweepOp(now), login);
    DropKeepsComplete(t.sessions, t.clients, Client, ExpiredKeys(t, now), ExpiredUids(t, now));
    DropKeepsComplete(t.sessions, t.proxies, Proxy, ExpiredKeys(t, now), ExpiredUids(t, now));
    DropKeepsNoDangling(t, ExpiredKeys(t, now), ExpiredUids(t, now), login);
  }

  lemma {:induction false} ApplyConsistent(t: Table, op: Op, login: string -> Login)
    requires Consistent(t, login) && Issued(op, login) && NoOverlap(t, op)
    ensures Consistent(Apply(t, op), login)
  {
    match op
    case SetOp(info, now) => SetConsistent(t, info, now, login);
    case GetOp(key, now) => ApplySound(t, op, login);
    case RemoveOp(key) => RemoveConsistent(t, key, login);
    case SweepOp(now) => SweepConsistent(t, now, login);
  }

  lemma {:induction false} RunConsistent(t: Table, ops: seq<Op>, login: string -> Login)
    requires Consistent(t, login) && NoOverlapRun(t, ops, login)
    ensures Consistent(Run(t, ops), login)
    decreases |ops|
  {
    if ops != [] {
      ApplyConsistent(t, ops[0], login);
      RunConsistent(Apply(t, ops[0]), ops[1..], login);
    }
  }

  // ----- Index equals scan

  lemma {:induction false} ClientAnswerIsScan(t: Table, uid: string, info: SessionInfo, login: string -> Login)
    requires Consistent(t, login)
    ensures ClientOf(t, uid) == Some(info) <==> IsStoredClient(t, uid, info)
  {
    if uid in t.clients {
      assert login(t.clients[uid]) == Login(uid, Client);
      assert t.clients[uid] in KeysOfKind(t, Client);
    }
  }

  lemma {:induction false} InjectiveCount(m: Index, s: set<string>)
    requires forall u :: u in m ==> m[u] in s
    requires forall u, u' :: u in m && u' in m && m[u] == m[u'] ==> u == u'
    requires forall k :: k in s ==> exists u :: u in m && m[u] == k
    ensures |m| == |s|
    decreases s
  {
    if s == {} {
      assert m == map[];
    } else {
      var k :| k in s;
      var u :| u in m && m[u] == k;
      var m' := m - {u};
      forall k' | k' in s - {k} ensures exists u' :: u' in m' && m'[u'] == k' {
        var u' :| u' in m && m[u'] == k';
        assert u' in m' && m'[u'] == k';
      }
      InjectiveCount(m', s - {k});
      assert m.Keys == m'.Keys + {u};
    }
  }

  lemma {:induction false} CountClientsIsScan(t: Table, login: string -> Login)
    requires Consistent(t, login)
    ensures |t.clients| == |KeysOfKind(t, Client)|
  {
    forall u | u in t.clients ensures login(t.clients[u]) == Login(u, Client) && t.clients[u] in KeysOfKind(t, Client) {
    }
    forall k | k in KeysOfKind(t, Client) ensures exists u :: u in t.clients && t.clients[u] == k {
      assert t.sessions[k].value.uid in t.clients;
    }
    InjectiveCount(t.clients, KeysOfKind(t, Client));
  }

  lemma {:induction false} CountProxiesCoversScan(t: Table, login: string -> Login)
    requires Consistent(t, login)
    ensures |KeysOfKind(t, Proxy)| <= |t.proxies|
  {
    var live := map u | u in t.proxies && t.proxies[u] in t.sessions :: t.proxies[u];
    forall u | u in live ensures login(live[u]) == Login(u, Proxy) && live[u] in KeysOfKind(t, Proxy) {
    }
    forall k | k in KeysOfKind(t, Proxy) ensures exists u :: u in live && live[u] == k {
      assert t.sessions[k].value.uid in live;
    }
    InjectiveCount(live, KeysOfKind(t, Proxy));
    SubsetCount(live.Keys, t.proxies.Keys);
  }

  lemma {:induction false} SubsetCount<T>(a: set<T>, b: set<T>)
    requires a <= b
    ensures |a| <= |b|
  {
    assert b == a + (b - a);
  }

  /** What one iteration of the proxy index lists, as a set. */
  lemma {:induction false} ProxiesInAsSet(t: Table, key: string, order: seq<string>, info: SessionInfo)
    ensures info in ProxiesIn(t, key, order) <==>
      exists u :: u in order && u in t.proxies && t.proxies[u] != key && t.proxies[u] in t.sessions
        && t.sessions[t.proxies[u]].value == info
    decreases |order|
  {
    if order != [] {
      var init := order[..|order| - 1];
      ProxiesInAsSet(t, key, init, info);
      assert order == init + [order[|order| - 1]];
    }
  }

  lemma {:induction false} ProxiesAnswerIsScan(t: Table, key: string, answer: Option<seq<SessionInfo>>,
                                               login: string -> Login)
    requires Consistent(t, login) && IsProxiesAnswer(t, key, answer)
    ensures answer.None? <==> ScanProxies(t, key) == {}
    ensures answer.Some? ==>
      DistinctProxies(answer.value, key) && (set x | x in answer.value) == ScanProxies(t, key)
  {
    var order :| Enumerates(order, t.proxies.Keys) && answer == NoneIfEmpty(ProxiesIn(t, key, order));
    SoundProxiesIn(t, key, order, login);
    var listed := ProxiesIn(t, key, order);
    forall x ensures x in listed <==> x in ScanProxies(t, key) {
      ProxiesInAsSet(t, key, order, x);
      if x in ScanProxies(t, key) {
        var k :| k in KeysOfKind(t, Proxy) && k != key && t.sessions[k].value == x;
        assert x.uid in order;
      }
      if x in listed {
        var u :| u in order && u in t.proxies && t.proxies[u] != key && t.proxies[u] in t.sessions
          && t.sessions[t.proxies[u]].value == x;
        assert login(t.proxies[u]) == Login(u, Proxy);
        assert t.proxies[u] in KeysOfKind(t, Proxy);
      }
    }
    if listed != [] {
      assert listed[0] in ScanProxies(t, key);
    }
  }

  /** On every run in which no uid logs in over its own stored session, the answers of get_client,
      count_clients and get_proxies are those of a scan, and count_proxies never undercounts. */
  lemma {:induction false} IndexEqualsScan(ops: seq<Op>, uid: string, info: SessionInfo, key: string,
                        answer: Option<seq<SessionInfo>>, login: string -> Login)
    requires NoOverlapRun(EMPTY, ops, login)
    requires IsProxiesAnswer(Run(EMPTY, ops), key, answer)
    ensures var t := Run(EMPTY, ops);
      && (ClientOf(t, uid) == Some(info) <==> IsStoredClient(t, uid, info))
      && |t.clients| == |KeysOfKind(t, Client)|
      && |KeysOfKind(t, Proxy)| <= |t.proxies|
      && (answer.None? <==> ScanProxies(t, key) == {})
      && (answer.Some? ==>
          DistinctProxies(answer.value, key) && (set x | x in answer.value) == ScanProxies(t, key))
  {
    var t := Run(EMPTY, ops);
    RunConsistent(EMPTY, ops, login);
    ClientAnswerIsScan(t, uid, info, login);
    CountClientsIsScan(t, login);
    CountProxiesCoversScan(t, login);
    ProxiesAnswerIsScan(t, key, answer, login);
  }

  // ----- With overlapping logins: exactly when a stored client stays reachable

  /** Every uid with a stored client session gets one from get_client. */
  ghost predicate ClientsReachable(t: Table) {
    forall k :: k in KeysOfKind(t, Client) ==> ClientOf(t, t.sessions[k].value.uid).Some?
  }

  lemma {:induction false} LoginKeepsClientsReachable(t: Table, info: SessionInfo, now: int)
    requires ClientsReachable(t)
    ensures ClientsReachable(Set(t, info, now)) 
  {
    var t' := Set(t, info, now);
    forall k | k in KeysOfKind(t', Client) ensures ClientOf(t', t'.sessions[k].value.uid).Some? {
      if k != info.accessKey {
        assert k in KeysOfKind(t, Client);
      }
    }
  }

  ghost predicate SharesUid(t: Table, now: int, expired: string, live: string) {
    && expired in ExpiredKeys(t, now)
    && live in KeysOfKind(t, Client) - ExpiredKeys(t, now)
    && t.sessions[expired].value.uid == t.sessions[live].value.uid
  }

  /** A sweep forgets a stored client exactly when some uid has an expired session beside an unexpired
      client session: the index entry goes by uid, the sessions by key. */
  lemma {:induction false} SweepKeepsClientsReachableIff(t: Table, now: int, login: string -> Login)
    requires Sound(t, login) && ClientsReachable(t)
    ensures ClientsReachable(Swept(t, now)) <==> !exists k, k' :: SharesUid(t, now, k, k')
  {
    var t' := Swept(t, now);
    assert KeysOfKind(t', Client) == KeysOfKind(t, Client) - ExpiredKeys(t, now);
    if k, k' :| SharesUid(t, now, k, k') {
      assert t.sessions[k].value.uid in ExpiredUids(t, now);
      assert k' in KeysOfKind(t', Client);
    } else {
      forall k' | k' in KeysOfKind(t', Client) ensures ClientOf(t', t'.sessions[k'].value.uid).Some? {
        SweepKeepsOneClient(t, now, k', login);
      }
    }
  }

  lemma {:induction false} SweepKeepsOneClient(t: Table, now: int, key: string, login: string -> Login)
    requires Sound(t, login) && ClientsReachable(t)
    requires key in KeysOfKind(t, Client) - ExpiredKeys(t, now)
    requires !exists k :: SharesUid(t, now, k, key)
    ensures ClientOf(Swept(t, now), t.sessions[key].value.uid).Some?
  {
    var uid := t.sessions[key].value.uid;
    assert login(t.clients[uid]) == Login(uid, Client);
    assert uid !in ExpiredUids(t, now) by {
      if k :| k in ExpiredKeys(t, now) && t.sessions[k].value.uid == uid {
        assert SharesUid(t, now, k, key);
      }
    }
  }

  /** A client that logs in again before its first session expires is lost to its correspondents by the sweep
      that removes the first session, while the second is stored. */
  lemma {:induction false} SecondLoginIsForgotten(first: SessionInfo, second: SessionInfo)
    requires first.accessKey != second.accessKey && first.uid == second.uid
    requires first.component == Client && second.component == Client
    ensures var t := Run(EMPTY, [SetOp(first, 0), SetOp(second, 8000), SweepOp(10001)]);
      second.accessKey in KeysOfKind(t, Client) && ClientOf(t, second.uid).None?
  {
    var ops := [SetOp(first, 0), SetOp(second, 8000), SweepOp(10001)];
    assert ops[1..] == [SetOp(second, 8000), SweepOp(10001)];
    assert ops[1..][1..] == [SweepOp(10001)] && ops[1..][1..][1..] == [];
    var t := Set(Set(EMPTY, first, 0), second, 8000);
    assert first.accessKey in ExpiredKeys(t, 10001);
    assert first.uid in ExpiredUids(t, 10001);
    assert Run(t, [SweepOp(10001)]) == Run(Swept(t, 10001), []);
    assert Run(Set(EMPTY, first, 0), ops[1..]) == Run(t, [SweepOp(10001)]);
  }

  /** A logout forgets a stored client exactly when its uid has another client session. */
  lemma {:induction false} RemoveKeepsClientsReachableIff(t: Table, key: string, login: string -> Login)
    requires Sound(t, login) && ClientsReachable(t)
    ensures ClientsReachable(Removed(t, key)) <==>
      !exists k :: key in t.sessions && k in KeysOfKind(t, Client) && k != key
        && t.sessions[k].value.uid == t.sessions[key].value.uid
  {
    var t' := Removed(t, key);
    if key in t.sessions {
      var gone := t.sessions[key].value.uid;
      if !ClientsReachable(t') {
        var k :| k in KeysOfKind(t', Client) && ClientOf(t', t'.sessions[k].value.uid).None?;
        var uid := t.sessions[k].value.uid;
        assert k in KeysOfKind(t, Client) && k != key;
        assert login(t.clients[uid]) == Login(uid, Client);
        assert uid == gone;
      }
      if k :| k in KeysOfKind(t, Client) && k != key && t.sessions[k].value.uid == gone {
        assert k in KeysOfKind(t', Client);
      }
    }
  }

  // ----- The controllers index: a controller logs in beside its own sessions

  lemma {:induction false} RunOneMore(t: Table, ops: seq<Op>, op: Op)
    ensures Run(t, ops + [op]) == Apply(Run(t, ops), op)
    decreases |ops|
  {
    if ops == [] {
      assert ops + [op] == [op] && [op][1..] == [];
    } else {
      assert (ops + [op])[1..] == ops[1..] + [op];
      RunOneMore(Apply(t, ops[0]), ops[1..], op);
    }
  }

  predicate Registers(op: Op, uid: string) {
    op.SetOp? && op.info.component == Controller && op.info.uid == uid
  }

  /** The sweep meets an expired session of the uid, be it an older one. */
  predicate Forgets(ops: seq<Op>, n: nat, uid: string)
    requires n < |ops|
  {
    ops[n].SweepOp? && uid in ExpiredUids(Run(EMPTY, ops[..n]), ops[n].now)
  }

  ghost predicate RegisteredAndKept(ops: seq<Op>, i: nat, n: nat, uid: string)
    requires n <= |ops|
  {
    i < n && Registers(ops[i], uid) && forall m :: i < m < n ==> !Forgets(ops, m, uid)
  }

  lemma {:induction false} ControllerStep(ops: seq<Op>, n: nat, uid: string)
    requires n < |ops|
    ensures uid in Run(EMPTY, ops[..n + 1]).controllers <==>
      Registers(ops[n], uid) || (uid in Run(EMPTY, ops[..n]).controllers && !Forgets(ops, n, uid))
  {
    assert ops[..n + 1] == ops[..n] + [ops[n]];
    RunOneMore(EMPTY, ops[..n], ops[n]);
  }

  /** After any n operations a controller is counted if and only if no sweep since its last login met an expired
      session of its. */
  lemma {:induction false} ControllerCountedIff(ops: seq<Op>, n: nat, uid: string)
    requires n <= |ops|
    ensures uid in Run(EMPTY, ops[..n]).controllers <==> exists i: nat :: RegisteredAndKept(ops, i, n, uid)
    decreases n
  {
    if n > 0 {
      var last: nat := n - 1;
      ControllerCountedIff(ops, last, uid);
      ControllerStep(ops, last, uid);
      if Registers(ops[last], uid) {
        assert RegisteredAndKept(ops, last, n, uid);
      }
      if i: nat :| RegisteredAndKept(ops, i, last, uid) {
        assert Forgets(ops, last, uid) || RegisteredAndKept(ops, i, n, uid);
      }
      if i: nat :| RegisteredAndKept(ops, i, n, uid) {
        assert i == last || RegisteredAndKept(ops, i, last, uid);
      }
    }
  }

  /** count_controllers is 0 after a run if and only if every login of a controller was followed by a sweep that
      met an expired session of that controller, however many of its sessions are stored. */
  lemma {:induction false} NoControllerCountedIff(ops: seq<Op>)
    ensures |Run(EMPTY, ops).controllers| == 0 <==>
      !exists i: nat, uid :: RegisteredAndKept(ops, i, |ops|, uid)
  {
    assert ops[..|ops|] == ops;
    if i: nat, uid :| RegisteredAndKept(ops, i, |ops|, uid) {
      ControllerCountedIff(ops, |ops|, uid);
    }
    if |Run(EMPTY, ops).controllers| != 0 {
      var uid :| uid in Run(EMPTY, ops).controllers;
      ControllerCountedIff(ops, |ops|, uid);
    }
  }

  /** The controller's own refresh does that: the sweep that removes its oldest session leaves a later one stored
      and no controller counted. */
  lemma {:induction false} RefreshIsForgotten(first: SessionInfo, second: SessionInfo)
    requires first.accessKey != second.accessKey && first.uid == second.uid
    requires first.component == Controller && second.component == Controller
    ensures var t := Run(EMPTY, [SetOp(first, 0), SetOp(second, 2000), SweepOp(10001)]);
      KeysOfKind(t, Controller) == {second.accessKey} && |t.controllers| == 0
  {
    var ops := [SetOp(first, 0), SetOp(second, 2000), SweepOp(10001)];
    assert ops[1..] == [SetOp(second, 2000), SweepOp(10001)];
    assert ops[1..][1..] == [SweepOp(10001)] && ops[1..][1..][1..] == [];
    var t := Set(Set(EMPTY, first, 0), second, 2000);
    assert first.accessKey in ExpiredKeys(t, 10001);
    assert first.uid in ExpiredUids(t, 10001);
    assert Run(t, [SweepOp(10001)]) == Run(Swept(t, 10001), []);
    assert Run(Set(EMPTY, first, 0), ops[1..]) == Run(t, [SweepOp(10001)]);
  }
}
