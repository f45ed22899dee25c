/** The session repository at lock granularity: any number of tasks, each touching one map at a time. Every
    interleaving the locks allow is an interleaving of these steps. */
module SessionConcurrency {
  import opened Models
  import opened SessionTable

  /** A repository call, by what it has done so far. */
  datatype Task =
    | Login(info: SessionInfo, now: int)
    | LoginIndexed(info: SessionInfo, now: int)
    | Renewal(key: string, now: int)
    | Logout(key: string)
    | LogoutRemoved(uid: string)
    | Sweep(now: int)
    | AskClient(uid: string)
    | AskClientFound(uid: string, key: string)
    | ClientAnswer(uid: string, answer: Option<SessionInfo>)
    | AskProxies(key: string)
    | AskProxiesListed(key: string, keys: seq<string>)
    | ProxiesAnswer(key: string, proxies: Option<seq<SessionInfo>>)
    | Finished

  datatype System = System(table: Table, tasks: seq<Task>)

  /** The proxy index iterated in `order`, without the asker's own key. */
  function OtherKeys(index: Index, key: string, order: seq<string>): seq<string> {
    if order == [] then []
    else
      var rest := OtherKeys(index, key, order[..|order| - 1]);
      var uid := order[|order| - 1];
      if uid in index && index[uid] != key then rest + [index[uid]] else rest
  }

  function StoredOf(t: Table, keys: seq<string>): seq<SessionInfo> {
    if keys == [] then []
    else
      var rest := StoredOf(t, keys[..|keys| - 1]);
      var key := keys[|keys| - 1];
      if key in t.sessions then rest + [t.sessions[key].value] else rest
  }

  ghost predicate TaskStep(t: Table, task: Task, t': Table, task': Task) {
    match task
    case Login(info, now) => t' == Put(t, info) && task' == LoginIndexed(info, now)
    case LoginIndexed(info, now) => t' == Store(t, info, now) && task' == Finished
    case Renewal(key, now) => t' == Renewed(t, key, now) && task' == Finished
    case Logout(key) =>
      if key in t.sessions then
        t' == t.(sessions := t.sessions - {key}) && task' == LogoutRemoved(t.sessions[key].value.uid)
      else t' == t && task' == Finished
    case LogoutRemoved(uid) => t' == t.(clients := t.clients - {uid}) && task' == Finished
    case Sweep(now) => t' == Swept(t, now) && task' == Finished
    case AskClient(uid) =>
      t' == t && task' == if uid in t.clients then AskClientFound(uid, t.clients[uid]) else ClientAnswer(uid, None)
    case AskClientFound(uid, key) => t' == t && task' == ClientAnswer(uid, Lookup(t, key))
    case AskProxies(key) =>
      && t' == t
      && exists order ::
        Enumerates(order, t.proxies.Keys) && task' == AskProxiesListed(key, OtherKeys(t.proxies, key, order))
    case AskProxiesListed(key, keys) => t' == t && task' == ProxiesAnswer(key, NoneIfEmpty(StoredOf(t, keys)))
    case _ => false
  }

  ghost predicate Step(s: System, s': System) {
    exists i :: 0 <= i < |s.tasks| && |s'.tasks| == |s.tasks| && s'.tasks == s.tasks[i := s'.tasks[i]] &&
      TaskStep(s.table, s.tasks[i], s'.table, s'.tasks[i])
  }

  ghost predicate ProxyKeys(keys: seq<string>, key: string, login: string -> SessionTable.Login) {
    && (forall i :: 0 <= i < |keys| ==> keys[i] != key && login(keys[i]).component == Proxy)
    && (forall i, j :: 0 <= i < j < |keys| ==> login(keys[i]).uid != login(keys[j]).uid)
  }

  /** What a call has read or answered so far is right, whatever the other tasks did in between. */
  ghost predicate TaskSound(task: Task, login: string -> SessionTable.Login) {
    match task
    case Login(info, _) => login(info.accessKey) == LoginOf(info)
    case LoginIndexed(info, _) => login(info.accessKey) == LoginOf(info)
    case AskClientFound(uid, key) => login(key) == SessionTable.Login(uid, Client)
    case ClientAnswer(uid, answer) => answer.Some? ==> answer.value.uid == uid && answer.value.component == Client
    case AskProxiesListed(key, keys) => ProxyKeys(keys, key, login)
    case ProxiesAnswer(key, proxies) => proxies.Some? ==> proxies.value != [] && DistinctProxies(proxies.value, key)
    case _ => true
  }

  ghost predicate SystemSound(s: System, login: string -> SessionTable.Login) {
    Sound(s.table, login) && forall i :: 0 <= i < |s.tasks| ==> TaskSound(s.tasks[i], login)
  }

  lemma {:induction false} OtherKeysSound(index: Index, key: string, order: seq<string>,
                                          login: string -> SessionTable.Login)
    requires IndexSound(index, Proxy, login)
    requires forall i, j :: 0 <= i < j < |order| ==> order[i] != order[j]
    ensures ProxyKeys(OtherKeys(index, key, order), key, login)
    ensures forall k :: k in OtherKeys(index, key, order) ==> login(k).uid in order
    decreases |order|
  {
    if order != [] {
      var init, uid := order[..|order| - 1], order[|order| - 1];
      OtherKeysSound(index, key, init, login);
      assert order == init + [uid];
      assert uid !in init;
      if uid in index {
        assert login(index[uid]) == SessionTable.Login(uid, Proxy);
      }
    }
  }

  lemma {:induction false} StoredOfSound(t: Table, keys: seq<string>, key: string, login: string -> SessionTable.Login)
    requires Sound(t, login) && ProxyKeys(keys, key, login)
    ensures DistinctProxies(StoredOf(t, keys), key)
    ensures forall x :: x in StoredOf(t, keys) ==> x.accessKey in keys && login(x.accessKey) == LoginOf(x)
    decreases |keys|
  {
    if keys != [] {
      var init, last := keys[..|keys| - 1], keys[|keys| - 1];
      StoredOfSound(t, init, key, login);
      assert keys == init + [last];
      forall k | k in init ensures k != last && login(k).uid != login(last).uid {
      }
    }
  }

  lemma {:induction false} TaskStepSound(t: Table, task: Task, t': Table, task': Task,
                                         login: string -> SessionTable.Login)
    requires Sound(t, login) && TaskSound(task, login) && TaskStep(t, task, t', task')
    ensures Sound(t', login) && TaskSound(task', login)
  {
    match task
    case Login(info, now) => SetSound(t, info, now, login);
    case LoginIndexed(info, now) => SetSound(t, info, now, login);
    case Renewal(key, now) => ApplySound(t, GetOp(key, now), login);
    case Logout(key) =>
    case LogoutRemoved(uid) => IndexMinusSound(t.clients, {uid}, Client, login);
    case Sweep(now) => ApplySound(t, SweepOp(now), login);
    case AskClient(uid) =>
      if uid in t.clients {
        assert login(t.clients[uid]) == SessionTable.Login(uid, Client);
      }
    case AskClientFound(uid, key) =>
    case AskProxies(key) =>
      var order :| Enumerates(order, t.proxies.Keys) &&
        task' == AskProxiesListed(key, OtherKeys(t.proxies, key, order));
      OtherKeysSound(t.proxies, key, order, login);
    case AskProxiesListed(key, keys) => StoredOfSound(t, keys, key, login);
    case _ =>
  }

  ghost predicate Run(run: seq<System>) {
    && run != []
    && run[0].table == EMPTY
    && forall i :: 0 <= i < |run| - 1 ==> Step(run[i], run[i + 1])
  }

  /** A call that has done nothing yet. */
  ghost predicate Begins(task: Task, login: string -> SessionTable.Login) {
    match task
    case Login(info, _) => login(info.accessKey) == LoginOf(info)
    case Renewal(_, _) => true
    case Logout(_) => true
    case Sweep(_) => true
    case AskClient(_) => true
    case AskProxies(_) => true
    case _ => false
  }

  /** A key held by an index is absent from the sessions, or names a session of that uid and kind. */
  ghost predicate AbsentOrRight(t: Table, index: Index, component: Component) {
    forall u :: u in index && index[u] in t.sessions ==>
      LoginOf(t.sessions[index[u]].value) == SessionTable.Login(u, component)
  }

  lemma {:induction false} SoundIsAbsentOrRight(t: Table, index: Index, component: Component,
                                                login: string -> SessionTable.Login)
    requires Sound(t, login) && IndexSound(index, component, login)
    ensures AbsentOrRight(t, index, component)
  {
    forall u | u in index && index[u] in t.sessions
      ensures LoginOf(t.sessions[index[u]].value) == SessionTable.Login(u, component)
    {
      assert login(index[u]) == SessionTable.Login(u, component);
    }
  }

  lemma {:induction false} ReachedSound(run: seq<System>, n: nat, login: string -> SessionTable.Login)
    requires Run(run) && n < |run|
    requires forall i :: 0 <= i < |run[0].tasks| ==> Begins(run[0].tasks[i], login)
    ensures SystemSound(run[n], login)
  {
    if n > 0 {
      ReachedSound(run, n - 1, login);
      var s, s' := run[n - 1], run[n - 1 + 1];
      assert Step(s, s');
      var i :| 0 <= i < |s.tasks| && |s'.tasks| == |s.tasks| && s'.tasks == s.tasks[i := s'.tasks[i]] &&
        TaskStep(s.table, s.tasks[i], s'.table, s'.tasks[i]);
      TaskStepSound(s.table, s.tasks[i], s'.table, s'.tasks[i], login);
    }
  }

  /** In every state every interleaving reaches, also between the two writes of a login or a logout: each index
      is sound, a client lookup that has answered gave a Client session of the uid asked for, and a proxy lookup
      that has answered gave distinct Proxy sessions other than the asker's. */
  lemma {:induction false} InterleavingsSound(run: seq<System>, n: nat, i: nat, login: string -> SessionTable.Login)
    requires Run(run) && n < |run| && i < |run[n].tasks|
    requires forall k :: 0 <= k < |run[0].tasks| ==> Begins(run[0].tasks[k], login)
    ensures var t := run[n].table;
      && AbsentOrRight(t, t.clients, Client)
      && AbsentOrRight(t, t.proxies, Proxy)
      && AbsentOrRight(t, t.controllers, Controller)
    ensures match run[n].tasks[i]
      case ClientAnswer(uid, Some(info)) => info.uid == uid && info.component == Client
      case ProxiesAnswer(key, Some(infos)) => infos != [] && DistinctProxies(infos, key)
      case _ => true
  {
    ReachedSound(run, n, login);
    var t := run[n].table;
    SoundIsAbsentOrRight(t, t.clients, Client, login);
    SoundIsAbsentOrRight(t, t.proxies, Proxy, login);
    SoundIsAbsentOrRight(t, t.controllers, Controller, login);
    assert TaskSound(run[n].tasks[i], login);
  }

  // ----- The steps of one task, taken in a row, are the repository's operation

  ghost predicate TwoSteps(t: Table, task: Task, t1: Table, task1: Task, t': Table, task': Task) {
    TaskStep(t, task, t1, task1) && !IsThrough(task1) && TaskStep(t1, task1, t', task')
  }

  /** Left alone from the start, the task is through, in one step or in two. */
  ghost predicate RunsAlone(t: Table, task: Task, t': Table, task': Task) {
    && IsThrough(task')
    && (TaskStep(t, task, t', task') || exists t1, task1 :: TwoSteps(t, task, t1, task1, t', task'))
  }

  predicate IsThrough(task: Task) {
    task.Finished? || task.ClientAnswer? || task.ProxiesAnswer?
  }

  lemma {:induction false} StoredOfOthers(t: Table, key: string, order: seq<string>)
    ensures StoredOf(t, OtherKeys(t.proxies, key, order)) == ProxiesIn(t, key, order)
    decreases |order|
  {
    if order != [] {
      var init, uid := order[..|order| - 1], order[|order| - 1];
      StoredOfOthers(t, key, init);
      if uid in t.proxies && t.proxies[uid] != key {
        var rest := OtherKeys(t.proxies, key, init);
        assert (rest + [t.proxies[uid]])[..|rest|] == rest;
      }
    }
  }

  /** The table and the answer the operation itself gives. */
  ghost predicate IsOperation(t: Table, task: Task, t': Table, task': Task) {
    match task
    case Login(info, now) => t' == Set(t, info, now) && task' == Finished
    case Renewal(key, now) => t' == Renewed(t, key, now) && task' == Finished
    case Logout(key) => t' == Removed(t, key) && task' == Finished
    case Sweep(now) => t' == Swept(t, now) && task' == Finished
    case AskClient(uid) => t' == t && task' == ClientAnswer(uid, ClientOf(t, uid))
    case AskProxies(key) =>
      t' == t && task'.ProxiesAnswer? && task'.key == key && IsProxiesAnswer(t, key, task'.proxies)
    case _ => true
  }

  lemma {:induction false} TwoStepsAreOperation(t: Table, task: Task, t1: Table, task1: Task, t': Table, task': Task)
    requires TwoSteps(t, task, t1, task1, t', task')
    ensures IsOperation(t, task, t', task')
  {
    match task
    case AskProxies(key) =>
      var order :| Enumerates(order, t.proxies.Keys) &&
        task1 == AskProxiesListed(key, OtherKeys(t.proxies, key, order));
      StoredOfOthers(t, key, order);
    case _ =>
  }

  /** What a call does when no other task comes in between, it does as the operation of the repository. */
  lemma {:induction false} AloneIsOperation(t: Table, task: Task, t': Table, task': Task)
    requires RunsAlone(t, task, t', task')
    ensures IsOperation(t, task, t', task')
  {
    if t1, task1 :| TwoSteps(t, task, t1, task1, t', task') {
      TwoStepsAreOperation(t, task, t1, task1, t', task');
    }
  }

  /** And every call can be run alone from every table, so none is refused. */
  lemma {:induction false} CanRunAlone(t: Table, task: Task, login: string -> SessionTable.Login)
    returns (t': Table, task': Task)
    requires Begins(task, login)
    ensures RunsAlone(t, task, t', task')
  {
    t' := t;
    match task
    case Login(info, now) =>
      t', task' := Set(t, info, now), Finished;
      assert TwoSteps(t, task, Put(t, info), LoginIndexed(info, now), t', task');
    case Renewal(key, now) => t', task' := Renewed(t, key, now), Finished;
    case Logout(key) =>
      t', task' := Removed(t, key), Finished;
      if key in t.sessions {
        var t1 := t.(sessions := t.sessions - {key});
        assert TwoSteps(t, task, t1, LogoutRemoved(t.sessions[key].value.uid), t', task');
      }
    case Sweep(now) => t', task' := Swept(t, now), Finished;
    case AskClient(uid) =>
      task' := ClientAnswer(uid, ClientOf(t, uid));
      if uid in t.clients {
        assert TwoSteps(t, task, t, AskClientFound(uid, t.clients[uid]), t, task');
      }
    case AskProxies(key) =>
      var order := EnumerationExists(t.proxies.Keys);
      var keys := OtherKeys(t.proxies, key, order);
      task' := ProxiesAnswer(key, NoneIfEmpty(StoredOf(t, keys)));
      assert TaskStep(t, task, t, AskProxiesListed(key, keys));
      assert TwoSteps(t, task, t, AskProxiesListed(key, keys), t, task');
  }

  /** Between the two writes of a first login its uid is indexed and not found yet; between those of a logout it is
      still indexed and not found any more. */
  lemma {:induction false} BetweenWrites(t: Table, task: Task, t1: Table, task1: Task)
    requires TaskStep(t, task, t1, task1) && !IsThrough(task1)
    ensures task.Login? && task.info.component == Client && task.info.accessKey !in t.sessions ==>
      task.info.uid in t1.clients && ClientOf(t1, task.info.uid) == None && t1.sessions == t.sessions
    ensures task.Logout? ==>
      task.key in t.sessions && task.key !in t1.sessions && t1.clients == t.clients && t1.proxies == t.proxies
  {
  }

  // ----- An interleaved lookup reads the index once and the sessions once

  /** The answer when the index is read in the m-th state and the session in the m'-th. */
  function ClientRead(run: seq<System>, m: nat, m': nat, uid: string): Option<SessionInfo>
    requires m < |run| && m' < |run|
  {
    if uid in run[m].table.clients then Lookup(run[m'].table, run[m].table.clients[uid]) else None
  }

  ghost predicate ClientProgress(run: seq<System>, a: nat, n: nat, task: Task, uid: string)
    requires n < |run|
  {
    match task
    case AskClient(u) => u == uid
    case AskClientFound(u, key) =>
      u == uid && exists m :: a <= m < n && uid in run[m].table.clients && run[m].table.clients[uid] == key
    case ClientAnswer(u, answer) =>
      u == uid && exists m, m' :: a <= m <= m' < n && answer == ClientRead(run, m, m', uid)
    case _ => false
  }

  /** However tasks interleave, an answer to get_client is made of one reading of the index and one of the sessions,
      in this order and while the lookup was under way. */
  lemma {:induction false} ClientLookupReads(run: seq<System>, a: nat, n: nat, i: nat, uid: string)
    requires Run(run) && a <= n < |run| && i < |run[a].tasks| && run[a].tasks[i] == AskClient(uid)
    ensures i < |run[n].tasks| && ClientProgress(run, a, n, run[n].tasks[i], uid)
    decreases n
  {
    if a < n {
      var p: nat := n - 1;
      ClientLookupReads(run, a, p, i, uid);
      assert Step(run[p], run[p + 1]);
      var j :| 0 <= j < |run[p].tasks| && |run[n].tasks| == |run[p].tasks| &&
        run[n].tasks == run[p].tasks[j := run[n].tasks[j]] &&
        TaskStep(run[p].table, run[p].tasks[j], run[n].table, run[n].tasks[j]);
      if i == j && run[p].tasks[i].AskClient? && uid !in run[p].table.clients {
        assert run[n].tasks[i].answer == ClientRead(run, p, p, uid);
      }
      if i == j && run[p].tasks[i].AskClientFound? {
        var m :| a <= m < p && uid in run[m].table.clients && run[m].table.clients[uid] == run[p].tasks[i].key;
        assert run[n].tasks[i].answer == ClientRead(run, m, p, uid);
      }
    }
  }

  /** In particular a client whose index entry and session stay throughout the lookup is found. */
  lemma {:induction false} SteadyClientFound(run: seq<System>, a: nat, n: nat, i: nat, uid: string, key: string)
    requires Run(run) && a <= n < |run| && i < |run[a].tasks| && run[a].tasks[i] == AskClient(uid)
    requires i < |run[n].tasks| && run[n].tasks[i].ClientAnswer?
    requires forall m :: a <= m <= n ==> uid in run[m].table.clients && run[m].table.clients[uid] == key
    requires forall m :: a <= m <= n ==> key in run[m].table.sessions
    ensures exists m :: a <= m < n && run[n].tasks[i].answer == Some(run[m].table.sessions[key].value)
  {
    ClientLookupReads(run, a, n, i, uid);
    var m, m' :| a <= m <= m' < n && run[n].tasks[i].answer == ClientRead(run, m, m', uid);
    assert run[n].tasks[i].answer == Some(run[m'].table.sessions[key].value);
  }

  ghost predicate KeysRead(run: seq<System>, m: nat, key: string, keys: seq<string>)
    requires m < |run|
  {
    exists order :: Enumerates(order, run[m].table.proxies.Keys) && keys == OtherKeys(run[m].table.proxies, key, order)
  }

  ghost predicate ProxiesRead(run: seq<System>, m: nat, m': nat, key: string, answer: Option<seq<SessionInfo>>)
    requires m < |run| && m' < |run|
  {
    exists keys :: KeysRead(run, m, key, keys) && answer == NoneIfEmpty(StoredOf(run[m'].table, keys))
  }

  ghost predicate ProxiesProgress(run: seq<System>, a: nat, n: nat, task: Task, key: string)
    requires n < |run|
  {
    match task
    case AskProxies(k) => k == key
    case AskProxiesListed(k, keys) => k == key && exists m :: a <= m < n && KeysRead(run, m, key, keys)
    case ProxiesAnswer(k, answer) =>
      k == key && exists m, m' :: a <= m <= m' < n && ProxiesRead(run, m, m', key, answer)
    case _ => false
  }

  /** The same of get_proxies. */
  lemma {:induction false} ProxiesLookupReads(run: seq<System>, a: nat, n: nat, i: nat, key: string)
    requires Run(run) && a <= n < |run| && i < |run[a].tasks| && run[a].tasks[i] == AskProxies(key)
    ensures i < |run[n].tasks| && ProxiesProgress(run, a, n, run[n].tasks[i], key)
    decreases n
  {
    if a < n {
      var p: nat := n - 1;
      ProxiesLookupReads(run, a, p, i, key);
      assert Step(run[p], run[p + 1]);
      var j :| 0 <= j < |run[p].tasks| && |run[n].tasks| == |run[p].tasks| &&
        run[n].tasks == run[p].tasks[j := run[n].tasks[j]] &&
        TaskStep(run[p].table, run[p].tasks[j], run[n].table, run[n].tasks[j]);
      if i == j && run[p].tasks[i].AskProxies? {
        assert KeysRead(run, p, key, run[n].tasks[i].keys);
      }
      if i == j && run[p].tasks[i].AskProxiesListed? {
        var m :| a <= m < p && KeysRead(run, m, key, run[p].tasks[i].keys);
        assert ProxiesRead(run, m, p, key, run[n].tasks[i].proxies);
      }
    }
  }

  lemma {:induction false} OtherKeysHas(index: Index, key: string, order: seq<string>, uid: string)
    requires uid in order && uid in index && index[uid] != key
    ensures index[uid] in OtherKeys(index, key, order)
    decreases |order|
  {
    var init := order[..|order| - 1];
    assert order == init + [order[|order| - 1]];
    if uid in init {
      OtherKeysHas(index, key, init, uid);
    }
  }

  lemma {:induction false} StoredOfHas(t: Table, keys: seq<string>, key: string)
    requires key in keys && key in t.sessions
    ensures t.sessions[key].value in StoredOf(t, keys)
    decreases |keys|
  {
    var init := keys[..|keys| - 1];
    assert keys == init + [keys[|keys| - 1]];
    if key in init {
      StoredOfHas(t, init, key);
    }
  }

  /** In particular a proxy other than the asker whose index entry and session stay throughout the lookup is among
      those listed. */
  lemma {:induction false} SteadyProxyListed(run: seq<System>, a: nat, n: nat, i: nat, key: string, uid: string,
                                             other: string)
    requires Run(run) && a <= n < |run| && i < |run[a].tasks| && run[a].tasks[i] == AskProxies(key)
    requires i < |run[n].tasks| && run[n].tasks[i].ProxiesAnswer? && other != key
    requires forall m :: a <= m <= n ==> uid in run[m].table.proxies && run[m].table.proxies[uid] == other
    requires forall m :: a <= m <= n ==> other in run[m].table.sessions
    ensures run[n].tasks[i].proxies.Some?
    ensures exists m :: a <= m < n && run[m].table.sessions[other].value in run[n].tasks[i].proxies.value
  {
    ProxiesLookupReads(run, a, n, i, key);
    var answer := run[n].tasks[i].proxies;
    var m, m' :| a <= m <= m' < n && ProxiesRead(run, m, m', key, answer);
    var keys :| KeysRead(run, m, key, keys) && answer == NoneIfEmpty(StoredOf(run[m'].table, keys));
    var order :| Enumerates(order, run[m].table.proxies.Keys) && keys == OtherKeys(run[m].table.proxies, key, order);
    OtherKeysHas(run[m].table.proxies, key, order, uid);
    StoredOfHas(run[m'].table, keys, other);
    assert run[m'].table.sessions[other].value in answer.value;
  }
}
