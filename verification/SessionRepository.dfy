/** The in-memory session repository: four maps updated in place, one operation at a time. */
module SessionRepository {
  import opened Models
  import opened SessionTable

  ghost function KeysOf(pairs: seq<(string, string)>): set<string> {
    set p | p in pairs :: p.0
  }

  ghost function UidsOf(pairs: seq<(string, string)>): set<string> {
    set p | p in pairs :: p.1
  }

  ghost function Without(t: Table, keys: set<string>, uids: set<string>): Table {
    Table(t.sessions - keys, t.clients - uids, t.controllers - uids, t.proxies - uids)
  }

  lemma {:induction false} OneMore(pairs: seq<(string, string)>, i: nat)
    requires i < |pairs|
    ensures KeysOf(pairs[..i + 1]) == KeysOf(pairs[..i]) + {pairs[i].0}
    ensures UidsOf(pairs[..i + 1]) == UidsOf(pairs[..i]) + {pairs[i].1}
  {
    assert pairs[..i + 1] == pairs[..i] + [pairs[i]];
  }

  lemma {:induction false} WithoutOneMore(t: Table, pairs: seq<(string, string)>, i: nat)
    requires i < |pairs|
    ensures Without(t, KeysOf(pairs[..i + 1]), UidsOf(pairs[..i + 1]))
         == Without(Without(t, KeysOf(pairs[..i]), UidsOf(pairs[..i])), {pairs[i].0}, {pairs[i].1})
  {
    OneMore(pairs, i);
    var uids, uid := UidsOf(pairs[..i]), pairs[i].1;
    assert t.clients - (uids + {uid}) == t.clients - uids - {uid};
    assert t.controllers - (uids + {uid}) == t.controllers - uids - {uid};
    assert t.proxies - (uids + {uid}) == t.proxies - uids - {uid};
    assert t.sessions - (KeysOf(pairs[..i]) + {pairs[i].0}) == t.sessions - KeysOf(pairs[..i]) - {pairs[i].0};
  }

  class InMemoryRepository {
    var sessions: map<string, Expiring<SessionInfo>>
    var clients: Index
    var controllers: Index
    var proxies: Index

    function State(): Table
      reads this
    {
      Table(sessions, clients, controllers, proxies)
    }

    ghost predicate Valid()
      reads this
    {
      Keyed(State())
    }

    constructor ()
      ensures Valid() && State() == EMPTY
    {
      sessions, clients, controllers, proxies := map[], map[], map[], map[];
    }

    method SetSession(info: SessionInfo, now: int)
      requires Valid()
      modifies this
      ensures Valid() && State() == Set(old(State()), info, now)
    {
      match info.component {
        case Client => clients := clients[info.uid := info.accessKey];
        case Proxy => proxies := proxies[info.uid := info.accessKey];
        case Controller => controllers := controllers[info.uid := info.accessKey];
      }
      sessions := sessions[info.accessKey := Wrap(info, SESSIONS_EXPIRATION_TIME, now)];
    }

    method GetSession(key: string, now: int) returns (found: Option<SessionInfo>)
      requires Valid()
      modifies this`sessions
      ensures Valid() && State() == Renewed(old(State()), key, now)
      ensures found == Lookup(old(State()), key)
    {
      if key in sessions {
        sessions := sessions[key := sessions[key].Renew(now)];
        return Some(sessions[key].value);
      }
      return None;
    }

    method RemoveSession(key: string)
      requires Valid()
      modifies this`sessions, this`clients
      ensures Valid() && State() == Removed(old(State()), key)
    {
      if key in sessions {
        var wrapper := sessions[key];
        sessions := sessions - {key};
        clients := clients - {wrapper.value.uid};
      }
    }

    method GetProxies(key: string) returns (found: Option<seq<SessionInfo>>)
      ensures IsProxiesAnswer(State(), key, found)
    {
      var result: seq<SessionInfo> := [];
      var rest := proxies.Keys;
      ghost var order: seq<string> := [];
      while rest != {}
        invariant rest <= proxies.Keys
        invariant Enumerates(order, proxies.Keys - rest)
        invariant result == ProxiesIn(State(), key, order)
        decreases rest
      {
        var uid :| uid in rest;
        rest := rest - {uid};
        ghost var longer := order + [uid];
        assert longer[..|longer| - 1] == order;
        if proxies[uid] != key && proxies[uid] in sessions {
          result := result + [sessions[proxies[uid]].value];
        }
        order := longer;
      }
      found := if result == [] then None else Some(result);
      assert Enumerates(order, State().proxies.Keys);
      assert found == NoneIfEmpty(ProxiesIn(State(), key, order));
    }

    method GetClient(uid: string) returns (found: Option<SessionInfo>)
      ensures found == ClientOf(State(), uid)
    {
      if uid in clients {
        var client := clients[uid];
        if client in sessions {
          return Some(sessions[client].value);
        }
      }
      return None;
    }

    /** One pass of the sweeper: the expired entries are collected first, in whatever order the map yields
        them, and then removed by the access key and uid they carry. */
    method KillExpiredSessions(now: int)
      requires Valid()
      modifies this
      ensures Valid() && State() == Swept(old(State()), now)
    {
      var expired := CollectExpired(now);
      ghost var before := State();
      var i := 0;
      while i < |expired|
        invariant 0 <= i <= |expired|
        invariant State() == Without(before, KeysOf(expired[..i]), UidsOf(expired[..i]))
      {
        var (accessKey, uid) := expired[i];
        WithoutOneMore(before, expired, i);
        Discard(accessKey, uid);
        i := i + 1;
      }
      assert expired[..i] == expired;
    }

    method Discard(accessKey: string, uid: string)
      modifies this
      ensures State() == Without(old(State()), {accessKey}, {uid})
    {
      sessions := sessions - {accessKey};
      clients := clients - {uid};
      controllers := controllers - {uid};
      proxies := proxies - {uid};
    }

    method CollectExpired(now: int) returns (expired: seq<(string, string)>)
      requires Valid()
      ensures KeysOf(expired) == ExpiredKeys(State(), now)
      ensures UidsOf(expired) == ExpiredUids(State(), now)
    {
      expired := [];
      var rest := sessions.Keys;
      while rest != {}
        invariant rest <= sessions.Keys
        invariant KeysOf(expired) == ExpiredKeys(State(), now) - rest
        invariant UidsOf(expired) ==
          set k | k in sessions && k !in rest && sessions[k].IsExpired(now) :: sessions[k].value.uid
        decreases rest
      {
        var k :| k in rest;
        var wrapper := sessions[k];
        ghost var before := expired;
        if wrapper.IsExpired(now) {
          expired := expired + [(wrapper.value.accessKey, wrapper.value.uid)];
          OneMore(expired, |before|);
          assert expired[..|before|] == before && expired[..|before| + 1] == expired;
        }
        rest := rest - {k};
      }
    }

    method CountProxies() returns (n: nat)
      ensures n == |State().proxies|
    {
      n := |proxies|;
    }

    method CountClients() returns (n: nat)
      ensures n == |State().clients|
    {
      n := |clients|;
    }
  }
}
