/** The controller's session table: what each repository operation does to the sessions and their three
    indexes, and what every run of those operations keeps. */
module SessionTable {
  import opened Models

  const SESSIONS_EXPIRATION_TIME: nat := 10000

  type Index = map<string, string>

  datatype Table = Table(
    sessions: map<string, Expiring<SessionInfo>>,
    clients: Index,
    controllers: Index,
    proxies: Index)

  const EMPTY := Table(map[], map[], map[], map[])

  function Put(t: Table, info: SessionInfo): Table {
    match info.component
    case Client => t.(clients := t.clients[info.uid := info.accessKey])
    case Proxy => t.(proxies := t.proxies[info.uid := info.accessKey])
    case Controller => t.(controllers := t.controllers[info.uid := info.accessKey])
  }

  function Store(t: Table, info: SessionInfo, now: int): Table {
    t.(sessions := t.sessions[info.accessKey := Wrap(info, SESSIONS_EXPIRATION_TIME, now)])
  }

  function Set(t: Table, info: SessionInfo, now: int): Table {
    Store(Put(t, info), info, now)
  }

  function Renewed(t: Table, key: string, now: int): Table {
    if key in t.sessions then t.(sessions := t.sessions[key := t.sessions[key].Renew(now)]) else t
  }

  function Lookup(t: Table, key: string): Option<SessionInfo> {
    if key in t.sessions then Some(t.sessions[key].value) else None
  }

  function Removed(t: Table, key: string): Table {
    if key in t.sessions then
      t.(sessions := t.sessions - {key}, clients := t.clients - {t.sessions[key].value.uid})
    else t
  }

  function ExpiredKeys(t: Table, now: int): set<string> {
    set k | k in t.sessions && t.sessions[k].IsExpired(now)
  }

  function ExpiredUids(t: Table, now: int): set<string> {
    set k | k in t.sessions && t.sessions[k].IsExpired(now) :: t.sessions[k].value.uid
  }

  /** Exactly the unexpired sessions, and every index without the uids of the expired ones. */
  function Swept(t: Table, now: int): Table {
    var uids := ExpiredUids(t, now);
    Table(t.sessions - ExpiredKeys(t, now), t.clients - uids, t.controllers - uids, t.proxies - uids)
  }

  function ClientOf(t: Table, uid: string): Option<SessionInfo> {
    if uid in t.clients then Lookup(t, t.clients[uid]) else None
  }

  /** The proxy sessions other than `key`, when the proxy index is iterated in `order`. */
  function ProxiesIn(t: Table, key: string, order: seq<string>): seq<SessionInfo> {
    if order == [] then []
    else
      var rest := ProxiesIn(t, key, order[..|order| - 1]);
      var uid := order[|order| - 1];
      if uid in t.proxies && t.proxies[uid] != key && t.proxies[uid] in t.sessions
      then rest + [t.sessions[t.proxies[uid]].value]
      else rest
  }

  function NoneIfEmpty<T>(s: seq<T>): Option<seq<T>> {
    if s == [] then None else Some(s)
  }

  ghost predicate IsProxiesAnswer(t: Table, key: string, answer: Option<seq<SessionInfo>>) {
    exists order :: Enumerates(order, t.proxies.Keys) && answer == NoneIfEmpty(ProxiesIn(t, key, order))
  }

  /** A session is stored under its own access key. */
  ghost predicate Keyed(t: Table) {
    forall k :: k in t.sessions ==> t.sessions[k].value.accessKey == k
  }

  // ----- Runs

  datatype Op =
    | SetOp(info: SessionInfo, now: int)
    | GetOp(key: string, now: int)
    | RemoveOp(key: string)
    | SweepOp(now: int)

  function Apply(t: Table, op: Op): Table {
    match op
    case SetOp(info, now) => Set(t, info, now)
    case GetOp(key, now) => Renewed(t, key, now)
    case RemoveOp(key) => Removed(t, key)
    case SweepOp(now) => Swept(t, now)
  }

  function Run(t: Table, ops: seq<Op>): Table
    decreases |ops|
  {
    if ops == [] then t else Run(Apply(t, ops[0]), ops[1..])
  }

  lemma {:induction false} RenewedTwice(t: Table, key: string, now: int)
    ensures Renewed(Renewed(t, key, now), key, now) == Renewed(t, key, now)
  {
    if key in t.sessions {
      var once := t.sessions[key].Renew(now);
      assert t.sessions[key := once][key := once] == t.sessions[key := once];
    }
  }

  lemma {:induction false} RenewedThenRemoved(t: Table, key: string, now: int)
    ensures Removed(Renewed(t, key, now), key) == Removed(t, key)
  {
    if key in t.sessions {
      assert t.sessions[key := t.sessions[key].Renew(now)] - {key} == t.sessions - {key};
    }
  }

  // ----- What each operation does, entry by entry

  /** A login is found under its key from then on, and through every sweep of the next 10000 ms; its kind's index gives
      its key for its uid; every other session and index entry stays. */
  lemma {:induction false} LoginExact(t: Table, info: SessionInfo, now: int, later: int)
    ensures var t' := Set(t, info, now);
      && Lookup(t', info.accessKey) == Some(info)
      && (info.accessKey in Swept(t', later).sessions <==> later <= now + 10000)
      && t'.sessions - {info.accessKey} == t.sessions - {info.accessKey}
      && t'.clients == (if info.component == Client then t.clients[info.uid := info.accessKey] else t.clients)
      && t'.proxies == (if info.component == Proxy then t.proxies[info.uid := info.accessKey] else t.proxies)
      && t'.controllers ==
        (if info.component == Controller then t.controllers[info.uid := info.accessKey] else t.controllers)
  {
    var t' := Set(t, info, now);
    assert t'.sessions[info.accessKey].expiresAt == now + 10000;
  }

  /** A logout takes the session and, whatever its kind, its uid from the clients index only: a proxy that logs out is
      still counted, and no longer listed. */
  lemma {:induction false} LogoutExact(t: Table, key: string, order: seq<string>)
    ensures var t' := Removed(t, key);
      && t'.sessions == t.sessions - {key}
      && t'.clients == (if key in t.sessions then t.clients - {t.sessions[key].value.uid} else t.clients)
      && |t'.proxies| == |t.proxies| && |t'.controllers| == |t.controllers|
      && t'.proxies == t.proxies && t'.controllers == t.controllers
      && (Keyed(t) ==> forall x :: x in ProxiesIn(t', "", order) ==> x.accessKey != key)
    decreases |order|
  {
    if order != [] {
      LogoutExact(t, key, order[..|order| - 1]);
    }
  }

  ghost predicate ExpiredUid(t: Table, uid: string, now: int) {
    exists k :: k in t.sessions && t.sessions[k].expiresAt < now && t.sessions[k].value.uid == uid
  }

  /** A sweep keeps exactly the sessions whose deadline has not passed, and in every index exactly the uids of which no
      session has expired, whatever key they name. */
  lemma {:induction false} SweepExact(t: Table, now: int)
    ensures var t' := Swept(t, now);
      && (forall k :: k in t'.sessions <==> k in t.sessions && now <= t.sessions[k].expiresAt)
      && (forall k :: k in t'.sessions ==> t'.sessions[k] == t.sessions[k])
      && (forall u :: u in t'.clients <==> u in t.clients && !ExpiredUid(t, u, now))
      && (forall u :: u in t'.proxies <==> u in t.proxies && !ExpiredUid(t, u, now))
      && (forall u :: u in t'.controllers <==> u in t.controllers && !ExpiredUid(t, u, now))
      && (forall u :: u in t'.clients ==> t'.clients[u] == t.clients[u])
      && (forall u :: u in t'.proxies ==> t'.proxies[u] == t.proxies[u])
      && (forall u :: u in t'.controllers ==> t'.controllers[u] == t.controllers[u])
  {
    forall u ensures u in ExpiredUids(t, now) <==> ExpiredUid(t, u, now) {
      if u in ExpiredUids(t, now) {
        var k :| k in t.sessions && t.sessions[k].IsExpired(now) && t.sessions[k].value.uid == u;
        assert t.sessions[k].expiresAt < now;
      }
    }
  }

  // ----- Soundness: what an index holds

  /** What a login is for. An access key is generated once, so it determines its login. */
  datatype Login = Login(uid: string, component: Component)

  function LoginOf(info: SessionInfo): Login {
    Login(info.uid, info.component)
  }

  ghost predicate IndexSound(index: Index, component: Component, login: string -> Login) {
    forall u :: u in index ==> login(index[u]) == Login(u, component)
  }

  ghost predicate Sound(t: Table, login: string -> Login) {
    && Keyed(t)
    && (forall k :: k in t.sessions ==> login(k) == LoginOf(t.sessions[k].value))
    && IndexSound(t.clients, Client, login)
    && IndexSound(t.controllers, Controller, login)
    && IndexSound(t.proxies, Proxy, login)
  }

  ghost predicate Issued(op: Op, login: string -> Login) {
    op.SetOp? ==> login(op.info.accessKey) == LoginOf(op.info)
  }

  lemma {:induction false} SetSound(t: Table, info: SessionInfo, now: int, login: string -> Login)
    requires Sound(t, login) && login(info.accessKey) == LoginOf(info)
    ensures Sound(Put(t, info), login)
    ensures Sound(Store(t, info, now), login)
  {
    PutIndexSound(t.clients, info, Client, login);
    PutIndexSound(t.controllers, info, Controller, login);
    PutIndexSound(t.proxies, info, Proxy, login);
  }

  lemma {:induction false} PutIndexSound(index: Index, info: SessionInfo, component: Component, login: string -> Login)
    requires IndexSound(index, component, login) && login(info.accessKey) == LoginOf(info)
    ensures info.component == component ==> IndexSound(index[info.uid := info.accessKey], component, login)
  {
  }

  lemma {:induction false} IndexMinusSound(index: Index, uids: set<string>, component: Component,
                                           login: string -> Login)
    requires IndexSound(index, component, login)
    ensures IndexSound(index - uids, component, login)
  {
  }

  lemma {:induction false} IndexesMinusSound(t: Table, uids: set<string>, login: string -> Login)
    requires Sound(t, login)
    ensures IndexSound(t.clients - uids, Client, login)
    ensures IndexSound(t.controllers - uids, Controller, login)
    ensures IndexSound(t.proxies - uids, Proxy, login)
  {
    IndexMinusSound(t.clients, uids, Client, login);
    IndexMinusSound(t.controllers, uids, Controller, login);
    IndexMinusSound(t.proxies, uids, Proxy, login);
  }

  lemma {:induction false} ApplySound(t: Table, op: Op, login: string -> Login)
    requires Sound(t, login) && Issued(op, login)
    ensures Sound(Apply(t, op), login)
  {
    match op
    case SetOp(info, now) =>
      SetSound(t, info, now, login);
      SetSound(Put(t, info), info, now, login);
    case GetOp(key, now) =>
    case RemoveOp(key) =>
      if key in t.sessions {
        IndexesMinusSound(t, {t.sessions[key].value.uid}, login);
      }
    case SweepOp(now) =>
      IndexesMinusSound(t, ExpiredUids(t, now), login);
  }

  lemma {:induction false} SoundClient(t: Table, uid: string, login: string -> Login)
    requires Sound(t, login)
    ensures var c := ClientOf(t, uid);
      c.Some? ==> c.value.uid == uid && c.value.component == Client
  {
    if uid in t.clients && t.clients[uid] in t.sessions {
      assert login(t.clients[uid]) == Login(uid, Client);
    }
  }

  ghost predicate DistinctProxies(infos: seq<SessionInfo>, key: string) {
    && (forall i :: 0 <= i < |infos| ==> infos[i].component == Proxy && infos[i].accessKey != key)
    && (forall i, j :: 0 <= i < j < |infos| ==>
        infos[i].accessKey != infos[j].accessKey && infos[i].uid != infos[j].uid)
  }

  lemma {:induction false} SoundProxiesIn(t: Table, key: string, order: seq<string>, login: string -> Login)
    requires Sound(t, login)
    requires forall i, j :: 0 <= i < j < |order| ==> order[i] != order[j]
    ensures DistinctProxies(ProxiesIn(t, key, order), key)
    ensures forall x :: x in ProxiesIn(t, key, order) ==> x.uid in order && login(x.accessKey) == LoginOf(x)
  {
    if order != [] {
      var init := order[..|order| - 1];
      var uid := order[|order| - 1];
      SoundProxiesIn(t, key, init, login);
      assert order == init + [uid];
      assert uid !in init;
      if uid in t.proxies && t.proxies[uid] != key && t.proxies[uid] in t.sessions {
        assert login(t.proxies[uid]) == Login(uid, Proxy);
      }
    }
  }

  lemma {:induction false} RunSound(t: Table, ops: seq<Op>, login: string -> Login)
    requires Sound(t, login)
    requires forall op :: op in ops ==> Issued(op, login)
    ensures Sound(Run(t, ops), login)
    decreases |ops|
  {
    if ops != [] {
      ApplySound(t, ops[0], login);
      RunSound(Apply(t, ops[0]), ops[1..], login);
    }
  }

  /** After any run, whatever get_client answers is a Client session of the uid asked for, and whatever
      get_proxies answers is a non-empty list of distinct Proxy sessions without the asker's own. */
  lemma {:induction false} SoundAnswers(ops: seq<Op>, uid: string, key: string, proxies: Option<seq<SessionInfo>>,
                                        login: string -> Login)
    requires forall op :: op in ops ==> Issued(op, login)
    requires IsProxiesAnswer(Run(EMPTY, ops), key, proxies)
    ensures var c := ClientOf(Run(EMPTY, ops), uid);
      c.Some? ==> c.value.uid == uid && c.value.component == Client
    ensures proxies.Some? ==> proxies.value != [] && DistinctProxies(proxies.value, key)
  {
    var t := Run(EMPTY, ops);
    RunSound(EMPTY, ops, login);
    SoundClient(t, uid, login);
    var order :| Enumerates(order, t.proxies.Keys) && proxies == NoneIfEmpty(ProxiesIn(t, key, order));
    SoundProxiesIn(t, key, order, login);
  }
}
