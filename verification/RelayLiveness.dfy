/** What a message needs to arrive by its own steps, exactly, from any reachable state and wherever it has got
    to: who must be logged in, and what must not have been swept. */
module RelayLiveness {
  import opened Models
  import SessionTable
  import opened Controller
  import opened Relay

  ghost predicate IsLiveProxy(t: SessionTable.Table, uid: string) {
    uid in t.proxies && t.proxies[uid] in t.sessions
  }

  ghost predicate TwoProxies(t: SessionTable.Table) {
    exists u, v :: IsLiveProxy(t, u) && IsLiveProxy(t, v) && t.proxies[u] != t.proxies[v]
  }

  ghost predicate OtherProxy(t: SessionTable.Table, key: string) {
    exists u :: IsLiveProxy(t, u) && t.proxies[u] != key
  }

  /** Under whose session the message goes on: the one its route leads to when it is handed on, otherwise the
      one it is at. */
  function Actor(chain: Chain): string {
    if Forwards(chain) && chain.hops != [] then LastHop(chain).accessKey else chain.asker
  }

  /** The recipient named is logged in as a client, or the controller when none is named. */
  ghost predicate RecipientReachable(t: SessionTable.Table, to: string) {
    && (to != "" ==> SessionTable.ClientOf(t, to).Some?)
    && (to == "" ==> SessionTable.ClientOf(t, "controller_uid").Some?)
  }

  /** Whom the routes still to be asked for can lead to. A message needs two proxies with none or one route handed
      out, with two a proxy other than the one that asks next, and the recipient until its route is handed out; a
      command that is not forwarded only needs a proxy other than the sender. */
  ghost predicate Ready(t: SessionTable.Table, chain: Chain) {
    if chain.command == Send then
      && (|chain.handed| <= 1 ==> TwoProxies(t))
      && (|chain.handed| == 2 ==> OtherProxy(t, Actor(chain)))
      && (|chain.handed| <= 3 ==> RecipientReachable(t, chain.to))
    else
      |chain.handed| == 0 ==> OtherProxy(t, chain.asker)
  }

  /** The message is under way, whoever acts next is logged in, and nothing of its own has been swept. */
  ghost predicate LiveChain(c: Tables, chain: Chain) {
    && CanAct(chain)
    && Actor(chain) in c.sessions.sessions
    && Ready(c.sessions, chain)
    && (chain.phase != Starting ==> chain.id.Some? && chain.id.value in c.routes.conversations)
    && (chain.phase in {Holding, Arrived, Landing} ==>
        chain.handed != [] && LastHanded(chain).nonce in c.routes.routes)
  }

  /** A message is delivered; another command is executed by the first proxy. */
  predicate Done(chain: Chain) {
    chain.phase == if chain.command == Send then Delivered else Ended
  }

  ghost predicate Live(w: World, i: nat) {
    i < |w.chains| && LiveChain(w.controller, w.chains[i])
  }

  lemma {:induction false} RenewedIsAsLive(t: SessionTable.Table, key: string, now: int)
    ensures var t' := SessionTable.Renewed(t, key, now);
      && (TwoProxies(t') <==> TwoProxies(t))
      && (forall k :: OtherProxy(t', k) <==> OtherProxy(t, k))
      && (forall uid :: SessionTable.ClientOf(t', uid) == SessionTable.ClientOf(t, uid))
  {
    var t' := SessionTable.Renewed(t, key, now);
    assert forall u :: IsLiveProxy(t', u) <==> IsLiveProxy(t, u);
    assert t'.proxies == t.proxies;
  }

  /** Among two proxies one is not the asker. */
  lemma {:induction false} TwoGiveOther(t: SessionTable.Table, key: string)
    requires TwoProxies(t)
    ensures OtherProxy(t, key)
  {
    var u, v :| IsLiveProxy(t, u) && IsLiveProxy(t, v) && t.proxies[u] != t.proxies[v];
    assert t.proxies[u] != key || t.proxies[v] != key;
  }

  /** Nobody is left without another proxy to route to while there is one. */
  lemma {:induction false} SomeOtherListed(t: SessionTable.Table, key: string, order: seq<string>)
    requires OtherProxy(t, key) && Enumerates(order, t.proxies.Keys)
    ensures SessionTable.ProxiesIn(t, key, order) != []
  {
    var u :| IsLiveProxy(t, u) && t.proxies[u] != key;
    assert u in order;
    ListedIfOther(t, key, order, u);
  }

  lemma {:induction false} ListedIfOther(t: SessionTable.Table, key: string, order: seq<string>, uid: string)
    requires uid in order && IsLiveProxy(t, uid) && t.proxies[uid] != key
    ensures SessionTable.ProxiesIn(t, key, order) != []
    decreases |order|
  {
    var init := order[..|order| - 1];
    assert order == init + [order[|order| - 1]];
    if uid in init {
      ListedIfOther(t, key, init, uid);
    }
  }

  /** Whoever is listed is a live proxy other than the asker. */
  lemma {:induction false} ListedAreLive(t: SessionTable.Table, key: string, order: seq<string>)
    requires SessionTable.Keyed(t)
    ensures forall x :: x in SessionTable.ProxiesIn(t, key, order) ==>
      x.accessKey in t.sessions && x.accessKey != key && exists u :: IsLiveProxy(t, u) && t.proxies[u] == x.accessKey
    decreases |order|
  {
    if order != [] {
      ListedAreLive(t, key, order[..|order| - 1]);
      var uid := order[|order| - 1];
      assert IsLiveProxy(t, uid) ==> t.sessions[t.proxies[uid]].value.accessKey == t.proxies[uid];
    }
  }

  // ----- One step of a live message

  lemma {:induction false} OpeningMove(w: World, i: nat, now: int, login: string -> SessionTable.Login)
    returns (move: Move)
    requires Inv(w, login) && Live(w, i) && w.chains[i].phase == Starting
    ensures move.now == now && Legal(w, Act(i, move), login) && Live(Next(w, Act(i, move)), i)
  {
    var id := UnusedString(w.usedIds);
    move := Move(id, Choice([], 0, ""), now, "");
    assert ChainRight(w.controller, w.chains[i]);
    RenewedIsAsLive(w.controller.sessions, w.chains[i].key, now);
  }

  lemma {:induction false} RoutingMove(w: World, i: nat, now: int, login: string -> SessionTable.Login)
    returns (move: Move)
    requires Inv(w, login) && Live(w, i) && w.chains[i].phase in {Opened, Asking}
    ensures move.now == now && Legal(w, Act(i, move), login) && Live(Next(w, Act(i, move)), i)
  {
    var c, chain := w.controller, w.chains[i];
    assert ChainRight(c, chain);
    var nonce := UnusedString(w.usedNonces);
    var order := EnumerationExists(c.sessions.proxies.Keys);
    move := Move("", Choice(order, 0, nonce), now, "");
    RoutingKeepsLive(c, chain, move);
  }

  lemma {:induction false} RoutingKeepsLive(c: Tables, chain: Chain, move: Move)
    requires ChainRight(c, chain) && LiveChain(c, chain) && chain.phase in {Opened, Asking}
    requires SessionTable.Keyed(c.sessions) && Enumerates(move.choice.order, c.sessions.proxies.Keys)
    requires move.choice.nonce !in c.routes.routes && move.choice.pick == 0
    ensures LiveChain(Serve(c, CallOf(chain, move).value), AfterRoute(c, chain, move))
  {
    RoutingAnswered(c, chain, move);
    RoutedActorStored(c, chain, move);
    RenewedIsAsLive(c.sessions, chain.asker, move.now);
    RoutedIsReady(c, chain, move);
  }

  lemma {:induction false} RoutingAnswered(c: Tables, chain: Chain, move: Move)
    requires ChainRight(c, chain) && LiveChain(c, chain) && chain.phase in {Opened, Asking}
    requires Enumerates(move.choice.order, c.sessions.proxies.Keys)
    requires move.choice.nonce !in c.routes.routes && move.choice.pick == 0
    ensures RouteCall(c, chain.asker, chain.id.value, move.choice, move.now).1.Ok?
  {
    if |chain.handed| <= 1 && chain.command == Send {
      TwoGiveOther(c.sessions, chain.asker);
    }
    if |chain.handed| < 3 {
      SomeOtherListed(c.sessions, chain.asker, move.choice.order);
    }
    RouteCallFailsIff(c, chain.asker, chain.id.value, move.choice, move.now);
  }

  lemma {:induction false} RoutedActorStored(c: Tables, chain: Chain, move: Move)
    requires ChainRight(c, chain) && LiveChain(c, chain) && chain.phase in {Opened, Asking}
    requires SessionTable.Keyed(c.sessions)
    requires RouteCall(c, chain.asker, chain.id.value, move.choice, move.now).1.Ok?
    ensures Actor(AfterRoute(c, chain, move)) in c.sessions.sessions
  {
    ListedAreLive(c.sessions, chain.asker, move.choice.order);
  }

  /** The next asker finds whom it needs: of two proxies one is not itself. */
  lemma {:induction false} RoutedIsReady(c: Tables, chain: Chain, move: Move)
    requires ChainRight(c, chain) && LiveChain(c, chain) && chain.phase in {Opened, Asking}
    ensures Ready(c.sessions, AfterRoute(c, chain, move))
  {
    if |chain.handed| <= 1 && chain.command == Send {
      TwoGiveOther(c.sessions, Actor(AfterRoute(c, chain, move)));
    }
  }

  lemma {:induction false} HandOverMove(w: World, i: nat, now: int, login: string -> SessionTable.Login)
    returns (move: Move)
    requires Inv(w, login) && Live(w, i) && w.chains[i].phase == Holding
    ensures move.now == now && Legal(w, Act(i, move), login) && Live(Next(w, Act(i, move)), i)
    ensures UsesOwnKey(w, Act(i, move))
  {
    assert ChainRight(w.controller, w.chains[i]);
    move := Move("", Choice([], 0, ""), now, Actor(w.chains[i]));
    HandOverKeeps(w.controller, w.chains[i], move);
    HandOverNext(w, i, move);
  }

  lemma {:induction false} HandOverKeeps(c: Tables, chain: Chain, move: Move)
    requires LiveChain(c, chain) && chain.phase == Holding && move.proxyKey == Actor(chain)
    ensures LiveChain(c, AfterHolding(chain, move))
  {
  }

  lemma {:induction false} HandOverNext(w: World, i: nat, move: Move)
    requires i < |w.chains| && CanAct(w.chains[i]) && w.chains[i].phase == Holding
    ensures Next(w, Act(i, move)) == w.(chains := w.chains[i := AfterHolding(w.chains[i], move)])
  {
  }

  lemma {:induction false} RedeemingMove(w: World, i: nat, now: int, login: string -> SessionTable.Login)
    returns (move: Move)
    requires Inv(w, login) && Live(w, i) && w.chains[i].phase in {Arrived, Landing}
    ensures move.now == now && Legal(w, Act(i, move), login)
    ensures Live(Next(w, Act(i, move)), i) || Done(Next(w, Act(i, move)).chains[i])
  {
    var chain := w.chains[i];
    move := Move("", Choice([], 0, ""), now, "");
    assert ChainRight(w.controller, chain);
    assert HopRight(chain, |chain.handed| - 1);
    if chain.phase == Arrived {
      ProxyRedeemsKeepsLive(w.controller, chain, move);
    } else {
      LandingDelivers(w.controller, chain, move);
    }
  }

  lemma {:induction false} ProxyRedeemsKeepsLive(c: Tables, chain: Chain, move: Move)
    requires ChainRight(c, chain) && LiveChain(c, chain) && chain.phase == Arrived
    ensures var chain' := AfterProxyRedeems(c, chain, move);
      if chain.command == Send then LiveChain(Serve(c, CallOf(chain, move).value), chain') else Done(chain')
  {
    assert HopRight(chain, |chain.handed| - 1);
    RenewedIsAsLive(c.sessions, chain.asker, move.now);
  }

  lemma {:induction false} LandingDelivers(c: Tables, chain: Chain, move: Move)
    requires ChainRight(c, chain) && LiveChain(c, chain) && chain.phase == Landing
    ensures Done(AfterLanding(c, chain, move))
  {
    assert HopRight(chain, |chain.handed| - 1);
  }

  lemma {:induction false} GoodMove(w: World, i: nat, now: int, login: string -> SessionTable.Login)
    returns (move: Move)
    requires Inv(w, login) && Live(w, i)
    ensures move.now == now && Legal(w, Act(i, move), login) && UsesOwnKey(w, Act(i, move))
    ensures Live(Next(w, Act(i, move)), i) || Done(Next(w, Act(i, move)).chains[i])
  {
    if w.chains[i].phase == Starting {
      move := OpeningMove(w, i, now, login);
    } else if w.chains[i].phase == Holding {
      move := HandOverMove(w, i, now, login);
    } else if w.chains[i].phase in {Arrived, Landing} {
      move := RedeemingMove(w, i, now, login);
    } else {
      move := RoutingMove(w, i, now, login);
    }
  }

  // ----- Time

  function TimeOf(call: Call): Option<int> {
    match call
    case Initializing(_, _, _, now) => Some(now)
    case Routing(_, _, _, now) => Some(now)
    case Redeeming(_, _, _, now) => Some(now)
    case OnSessions(SetOp(_, now)) => Some(now)
    case OnSessions(GetOp(_, now)) => Some(now)
    case OnSessions(RemoveOp(_)) => None
    case OnSessions(SweepOp(now)) => Some(now)
    case SweepingRoutes(now) => Some(now)
  }

  /** When an event happens, if it reads the clock. */
  function At(e: Event): Option<int> {
    match e
    case Act(_, move) => Some(move.now)
    case Other(call) => TimeOf(call)
    case _ => None
  }

  ghost predicate Clocked(events: seq<Event>) {
    forall a, b :: 0 <= a < b < |events| && At(events[a]).Some? && At(events[b]).Some? ==>
      At(events[a]).value <= At(events[b]).value
  }

  ghost predicate Until(events: seq<Event>, now: int) {
    forall e :: e in events && At(e).Some? ==> At(e).value <= now
  }

  // ----- The whole way

  /** Steps of chain i only, the first at clock(k), the next at clock(k + 1), and so on. */
  ghost predicate OwnSteps(events: seq<Event>, i: nat, clock: nat -> int, k: nat) {
    forall j :: 0 <= j < |events| ==> events[j].Act? && events[j].chain == i && events[j].move.now == clock(k + j)
  }

  lemma {:induction false} StepThen(w: World, e: Event, rest: seq<Event>, login: string -> SessionTable.Login)
    requires Legal(w, e, login) && LegalRun(Next(w, e), rest, login)
    ensures LegalRun(w, [e] + rest, login)
    ensures After(w, [e] + rest, login) == After(Next(w, e), rest, login)
    ensures UsesOwnKey(w, e) && OwnKeys(Next(w, e), rest, login) ==> OwnKeys(w, [e] + rest, login)
  {
    assert ([e] + rest)[1..] == rest;
  }

  /** The message `sent` is done, and arrived as sent if it was one to deliver. */
  ghost predicate CarriedOut(w: World, i: nat, sent: Chain, login: string -> SessionTable.Login) {
    && i < |w.chains|
    && SameMessage(sent, w.chains[i])
    && Done(w.chains[i])
    && (sent.command == Send ==> Arrives(w, i, sent.key, sent.to, sent.content, login))
  }

  lemma {:induction false} LiveStep(w: World, i: nat, now: int, login: string -> SessionTable.Login) returns (e: Event)
    requires Inv(w, login) && Live(w, i)
    ensures e.Act? && e.chain == i && e.move.now == now
    ensures Legal(w, e, login) && UsesOwnKey(w, e) && Inv(Next(w, e), login)
    ensures SameMessage(w.chains[i], Next(w, e).chains[i])
    ensures !Live(Next(w, e), i) ==> CarriedOut(Next(w, e), i, w.chains[i], login)
    ensures RankOf(Next(w, e).chains[i]) < RankOf(w.chains[i])
  {
    var move := GoodMove(w, i, now, login);
    e := Act(i, move);
    assert ChainRight(w.controller, w.chains[i]);
    ActLowersRank(w.controller, w.chains[i], move);
    NextKeepsInv(w, e, login);
    NextKeepsMessages(w, e);
    if !Live(Next(w, e), i) && w.chains[i].command == Send {
      DeliveredArrives(Next(w, e), i, login);
    }
  }

  lemma {:induction false} OneStepBefore(e: Event, rest: seq<Event>, i: nat, clock: nat -> int, k: nat)
    requires e.Act? && e.chain == i && e.move.now == clock(k) && OwnSteps(rest, i, clock, k + 1)
    ensures OwnSteps([e] + rest, i, clock, k)
  {
    var events := [e] + rest;
    forall j | 0 <= j < |events|
      ensures events[j].Act? && events[j].chain == i && events[j].move.now == clock(k + j)
    {
      if j > 0 {
        assert events[j] == rest[j - 1] && rest[j - 1].move.now == clock(k + 1 + (j - 1));
      }
    }
  }

  /** From every reachable state, a live message or command is carried out by nothing but its own steps, whatever
      times they are taken at, with every proxy acting under the session its route led to. */
  lemma {:induction false} DeliveryPossible(w: World, i: nat, clock: nat -> int, k: nat,
                                            login: string -> SessionTable.Login)
    returns (events: seq<Event>)
    requires Inv(w, login) && Live(w, i)
    ensures OwnSteps(events, i, clock, k) && LegalRun(w, events, login) && OwnKeys(w, events, login)
    ensures CarriedOut(After(w, events, login), i, w.chains[i], login)
    decreases RankOf(w.chains[i])
  {
    var e := LiveStep(w, i, clock(k), login);
    var rest: seq<Event> := [];
    if Live(Next(w, e), i) {
      rest := DeliveryPossible(Next(w, e), i, clock, k + 1, login);
    }
    events := [e] + rest;
    StepThen(w, e, rest, login);
    OneStepBefore(e, rest, i, clock, k);
  }

  lemma {:induction false} RunThen(w: World, events: seq<Event>, more: seq<Event>, login: string -> SessionTable.Login)
    requires LegalRun(w, events, login) && LegalRun(After(w, events, login), more, login)
    ensures LegalRun(w, events + more, login)
    ensures After(w, events + more, login) == After(After(w, events, login), more, login)
    decreases |events|
  {
    if events == [] {
      assert events + more == more;
    } else {
      assert (events + more)[1..] == events[1..] + more;
      RunThen(Next(w, events[0]), events[1..], more, login);
    }
  }

  lemma {:induction false} ClockedOn(events: seq<Event>, e: Event, steps: seq<Event>, i: nat, clock: nat -> int)
    requires Clocked(events) && Until(events, clock(0)) && At(e) == None && OwnSteps(steps, i, clock, 0)
    requires forall j, k :: j <= k ==> clock(j) <= clock(k)
    ensures Clocked(events + ([e] + steps))
  {
    var all, n := events + ([e] + steps), |events|;
    forall a, b | 0 <= a < b < |all| && At(all[a]).Some? && At(all[b]).Some?
      ensures At(all[a]).value <= At(all[b]).value
    {
      if b > n {
        assert all[b] == steps[b - n - 1] && clock(0) <= clock(0 + (b - n - 1));
        if a < n {
          assert all[a] in events;
        } else {
          assert all[a] == steps[a - n - 1];
        }
      }
    }
  }

  /** The sender, the recipient and two proxies are logged in. */
  ghost predicate CanSend(t: SessionTable.Table, key: string, to: string) {
    key in t.sessions && TwoProxies(t) && RecipientReachable(t, to)
  }

  lemma {:induction false} SendingSteps(w: World, key: string, to: string, content: Bytes, clock: nat -> int,
                                        login: string -> SessionTable.Login)
    returns (steps: seq<Event>)
    requires Inv(w, login) && CanSend(w.controller.sessions, key, to)
    ensures OwnSteps(steps, |w.chains|, clock, 0)
    ensures var sent := [Spawn(key, to, content, Send)] + steps;
      && LegalRun(w, sent, login)
      && OwnKeys(w, sent, login)
      && |w.chains| < |After(w, sent, login).chains|
      && Arrives(After(w, sent, login), |w.chains|, key, to, content, login)
  {
    var e := Spawn(key, to, content, Send);
    NextKeepsInv(w, e, login);
    steps := DeliveryPossible(Next(w, e), |w.chains|, clock, 0, login);
    StepThen(w, e, steps, login);
  }

  /** In particular, after any run: a message sent while its sender, its recipient and two proxies are logged in
      has a continuation of the run, at any later times, in which what was sent arrives at whom it was sent to. */
  lemma {:induction false} SentMessageCanArrive(events: seq<Event>, key: string, to: string, content: Bytes,
                                                clock: nat -> int,
                                                login: string -> SessionTable.Login)
    returns (steps: seq<Event>)
    requires LegalRun(START, events, login)
    requires CanSend(After(START, events, login).controller.sessions, key, to)
    requires Clocked(events) && Until(events, clock(0)) && forall j, k :: j <= k ==> clock(j) <= clock(k)
    ensures OwnSteps(steps, |After(START, events, login).chains|, clock, 0)
    ensures var w, sent := After(START, events, login), [Spawn(key, to, content, Send)] + steps;
      && LegalRun(w, sent, login) && OwnKeys(w, sent, login)
      && LegalRun(START, events + sent, login) && Clocked(events + sent)
      && |w.chains| < |After(START, events + sent, login).chains|
      && Arrives(After(START, events + sent, login), |w.chains|, key, to, content, login)
  {
    var w := After(START, events, login);
    RunKeepsInv(START, events, login);
    steps := SendingSteps(w, key, to, content, clock, login);
    RunThen(START, events, [Spawn(key, to, content, Send)] + steps, login);
    ClockedOn(events, Spawn(key, to, content, Send), steps, |w.chains|, clock);
  }

  // ----- What it cannot do without

  lemma {:induction false} RoutingNeeds(c: Tables, chain: Chain, move: Move)
    requires ChainRight(c, chain) && chain.phase in {Opened, Asking} && CanAct(chain)
    requires SessionTable.Keyed(c.sessions)
    requires LiveChain(Serve(c, CallOf(chain, move).value), AfterRoute(c, chain, move))
    ensures LiveChain(c, chain)
  {
    var t, chain' := c.sessions, AfterRoute(c, chain, move);
    RenewedIsAsLive(t, chain.asker, move.now);
    ListedAreLive(t, chain.asker, move.choice.order);
    if |chain.handed| == 1 && chain.command == Send {
      var hop := LastHop(chain').accessKey;
      assert Actor(chain') == hop && OtherProxy(t, hop);
      var v :| IsLiveProxy(t, v) && t.proxies[v] != hop;
      var u :| IsLiveProxy(t, u) && t.proxies[u] == hop;
      assert TwoProxies(t);
    }
  }

  lemma {:induction false} OpeningNeeds(c: Tables, chain: Chain, move: Move)
    requires ChainRight(c, chain) && chain.phase == Starting
    requires LiveChain(Serve(c, CallOf(chain, move).value), AfterInitialize(c, chain, move))
    ensures LiveChain(c, chain)
  {
    RenewedIsAsLive(c.sessions, chain.key, move.now);
  }

  lemma {:induction false} HandOverNeeds(c: Tables, chain: Chain, move: Move)
    requires ChainRight(c, chain) && chain.phase == Holding && CanAct(chain)
    requires Forwards(chain) ==> move.proxyKey == Actor(chain)
    requires LiveChain(c, AfterHolding(chain, move))
    ensures LiveChain(c, chain)
  {
  }

  lemma {:induction false} RedeemingNeeds(c: Tables, chain: Chain, move: Move)
    requires ChainRight(c, chain) && chain.phase in {Arrived, Landing} && CanAct(chain)
    requires var c', chain' := Serve(c, CallOf(chain, move).value), Acted(c, chain, move);
      LiveChain(c', chain') || Done(chain')
    ensures LiveChain(c, chain)
  {
    RenewedIsAsLive(c.sessions, chain.asker, move.now);
  }

  /** A chain is live before every own step after which it is live or done. */
  lemma {:induction false} StepNeedsLive(w: World, i: nat, move: Move, login: string -> SessionTable.Login)
    requires Inv(w, login) && Legal(w, Act(i, move), login) && UsesOwnKey(w, Act(i, move))
    requires Live(Next(w, Act(i, move)), i) || Done(Next(w, Act(i, move)).chains[i])
    ensures Live(w, i)
  {
    var c, chain := w.controller, w.chains[i];
    assert ChainRight(c, chain);
    match chain.phase {
      case Starting => OpeningNeeds(c, chain, move);
      case Holding => HandOverNeeds(c, chain, move);
      case Arrived => RedeemingNeeds(c, chain, move);
      case Landing => RedeemingNeeds(c, chain, move);
      case _ => RoutingNeeds(c, chain, move);
    }
  }

  /** A run of nothing but the chain's own steps, every proxy acting under the session its route led to, at the end of
      which the message is delivered, or the command that is not forwarded executed. */
  ghost predicate CarriesOut(w: World, events: seq<Event>, i: nat, login: string -> SessionTable.Login) {
    && LegalRun(w, events, login)
    && OwnKeys(w, events, login)
    && (forall e :: e in events ==> e.Act? && e.chain == i)
    && i < |After(w, events, login).chains|
    && After(w, events, login).chains[i].phase ==
      if After(w, events, login).chains[i].command == Send then Delivered else Ended
  }

  lemma {:induction false} CarryingOutNeedsLive(w: World, events: seq<Event>, i: nat,
                                                login: string -> SessionTable.Login)
    requires Inv(w, login) && i < |w.chains| && !Done(w.chains[i]) && CarriesOut(w, events, i, login)
    ensures Live(w, i)
    decreases |events|
  {
    var e := events[0];
    assert e in events;
    NextKeepsInv(w, e, login);
    if !Done(Next(w, e).chains[i]) {
      CarryingOutNeedsLive(Next(w, e), events[1..], i, login);
    }
    StepNeedsLive(w, i, e.move, login);
  }

  /** From every reachable state a message or command under way can be carried out by its own steps if and only if it
      is live: whoever acts next is logged in, and so are those the routes still missing can lead to, and its
      conversation and the nonce it is to redeem next are there. */
  lemma {:induction false} CarriedOutIff(w: World, i: nat, login: string -> SessionTable.Login)
    requires Inv(w, login) && i < |w.chains| && !Done(w.chains[i])
    ensures (exists events :: CarriesOut(w, events, i, login)) <==> Live(w, i)
  {
    if Live(w, i) {
      var events := DeliveryPossible(w, i, n => 0, 0, login);
      assert CarriesOut(w, events, i, login);
    }
    if events :| CarriesOut(w, events, i, login) {
      CarryingOutNeedsLive(w, events, i, login);
    }
  }

  /** In particular, a message just sent can arrive if and only if its sender, its recipient and two proxies are
      logged in. */
  lemma {:induction false} SendableIff(w: World, key: string, to: string, content: Bytes,
                                       login: string -> SessionTable.Login)
    requires Inv(w, login)
    ensures var sent := Next(w, Spawn(key, to, content, Send));
      (exists events :: CarriesOut(sent, events, |w.chains|, login)) <==> CanSend(w.controller.sessions, key, to)
  {
    var e := Spawn(key, to, content, Send);
    NextKeepsInv(w, e, login);
    CarriedOutIff(Next(w, e), |w.chains|, login);
  }

  /** And a status command just given can be executed if and only if its sender and another session's proxy are. */
  lemma {:induction false} StatusPossibleIff(w: World, key: string, login: string -> SessionTable.Login)
    requires Inv(w, login)
    ensures var asked, t := Next(w, Spawn(key, "", [], Status)), w.controller.sessions;
      (exists events :: CarriesOut(asked, events, |w.chains|, login)) <==> key in t.sessions && OtherProxy(t, key)
  {
    var e := Spawn(key, "", [], Status);
    NextKeepsInv(w, e, login);
    CarriedOutIff(Next(w, e), |w.chains|, login);
  }

  /** Without a session for whoever acts next no steps of its own deliver a message: the session the route leads to is
      needed, another proxy's does not help. */
  lemma {:induction false} LostNotDelivered(w: World, events: seq<Event>, i: nat, login: string -> SessionTable.Login)
    requires Inv(w, login) && i < |w.chains| && !Done(w.chains[i])
    requires Actor(w.chains[i]) !in w.controller.sessions.sessions
    ensures !CarriesOut(w, events, i, login)
  {
    CarriedOutIff(w, i, login);
  }

  // ----- From the very start

  ghost predicate AreLogins(infos: seq<SessionInfo>, login: string -> SessionTable.Login) {
    && (forall i :: 0 <= i < |infos| ==> login(infos[i].accessKey) == SessionTable.LoginOf(infos[i]))
    && (forall i, j :: 0 <= i < j < |infos| ==>
        infos[i].accessKey != infos[j].accessKey && infos[i].uid != infos[j].uid)
  }

  function LogInAt(info: SessionInfo, now: int): Event {
    Other(OnSessions(SessionTable.SetOp(info, now)))
  }

  /** Anybody can log in at any time. */
  lemma {:induction false} LoginIsLegal(w: World, info: SessionInfo, now: int, login: string -> SessionTable.Login)
    requires login(info.accessKey) == SessionTable.LoginOf(info)
    ensures Legal(w, LogInAt(info, now), login)
    ensures Next(w, LogInAt(info, now)).controller.sessions == SessionTable.Set(w.controller.sessions, info, now)
  {
  }

  /** Four logins, and a message gets through. */
  lemma {:induction false} FirstMessageArrives(sender: SessionInfo, recipient: SessionInfo,
                                               one: SessionInfo, two: SessionInfo,
                                               content: Bytes, clock: nat -> int, login: string -> SessionTable.Login)
    returns (events: seq<Event>)
    requires AreLogins([sender, recipient, one, two], login)
    requires sender.component == Client && recipient.component == Client && recipient.uid != ""
    requires one.component == Proxy && two.component == Proxy
    requires forall j, k :: j <= k ==> clock(j) <= clock(k)
    ensures LogIns([sender, recipient, one, two], clock(0)) <= events
    ensures LegalRun(START, events, login) && Clocked(events)
    ensures |After(START, events, login).chains| == 1
    ensures Arrives(After(START, events, login), 0, sender.accessKey, recipient.uid, content, login)
  {
    var now, infos := clock(0), [sender, recipient, one, two];
    LogInsRun(START, infos, now, login);
    LogInsClocked(infos, now);
    FourSessions(infos, now);
    events := SendFirst(LogIns(infos, now), sender.accessKey, recipient.uid, content, clock, login);
  }

  lemma {:induction false} LogInsClocked(infos: seq<SessionInfo>, now: int)
    ensures Clocked(LogIns(infos, now)) && Until(LogIns(infos, now), now)
  {
  }

  lemma {:induction false} SendFirst(logins: seq<Event>, key: string, to: string, content: Bytes, clock: nat -> int,
                                     login: string -> SessionTable.Login) returns (events: seq<Event>)
    requires LegalRun(START, logins, login) && After(START, logins, login).chains == []
    requires CanSend(After(START, logins, login).controller.sessions, key, to)
    requires Clocked(logins) && Until(logins, clock(0)) && forall j, k :: j <= k ==> clock(j) <= clock(k)
    ensures logins <= events && LegalRun(START, events, login) && Clocked(events)
    ensures |After(START, events, login).chains| == 1
    ensures Arrives(After(START, events, login), 0, key, to, content, login)
  {
    var steps := SentMessageCanArrive(logins, key, to, content, clock, login);
    var sent := [Spawn(key, to, content, Send)] + steps;
    events := logins + sent;
    ActsAddNoChain(After(START, logins, login), sent, login);
    RunThen(START, logins, sent, login);
  }

  function LogIns(infos: seq<SessionInfo>, now: int): (events: seq<Event>)
    ensures |events| == |infos| && forall i :: 0 <= i < |infos| ==> events[i] == LogInAt(infos[i], now)
  {
    if infos == [] then [] else [LogInAt(infos[0], now)] + LogIns(infos[1..], now)
  }

  function SetAll(t: SessionTable.Table, infos: seq<SessionInfo>, now: int): SessionTable.Table
    decreases |infos|
  {
    if infos == [] then t else SetAll(SessionTable.Set(t, infos[0], now), infos[1..], now)
  }

  lemma {:induction false} LogInsRun(w: World, infos: seq<SessionInfo>, now: int, login: string -> SessionTable.Login)
    requires forall i :: 0 <= i < |infos| ==> login(infos[i].accessKey) == SessionTable.LoginOf(infos[i])
    ensures LegalRun(w, LogIns(infos, now), login)
    ensures After(w, LogIns(infos, now), login).chains == w.chains
    ensures After(w, LogIns(infos, now), login).controller.sessions == SetAll(w.controller.sessions, infos, now)
    decreases |infos|
  {
    if infos != [] {
      LoginIsLegal(w, infos[0], now, login);
      LogInsRun(Next(w, LogInAt(infos[0], now)), infos[1..], now, login);
      StepThen(w, LogInAt(infos[0], now), LogIns(infos[1..], now), login);
    }
  }

  lemma {:induction false} FourSessions(infos: seq<SessionInfo>, now: int)
    requires |infos| == 4
    requires forall i, j :: 0 <= i < j < 4 ==> infos[i].accessKey != infos[j].accessKey && infos[i].uid != infos[j].uid
    requires infos[0].component == Client && infos[1].component == Client && infos[1].uid != ""
    requires infos[2].component == Proxy && infos[3].component == Proxy
    ensures CanSend(SetAll(SessionTable.EMPTY, infos, now), infos[0].accessKey, infos[1].uid)
  {
    assert infos[1..][1..] == infos[2..] && infos[2..][1..] == infos[3..] && infos[3..][1..] == [];
    var t1 := SessionTable.Set(SessionTable.EMPTY, infos[0], now);
    var t2 := SessionTable.Set(t1, infos[1], now);
    var t3 := SessionTable.Set(t2, infos[2], now);
    var t := SessionTable.Set(t3, infos[3], now);
    assert SetAll(t2, infos[2..], now) == SetAll(t3, infos[3..], now) == SetAll(t, [], now) == t;
    assert SetAll(SessionTable.EMPTY, infos, now) == SetAll(t1, infos[1..], now) == SetAll(t2, infos[2..], now);
    assert IsLiveProxy(t, infos[2].uid) && IsLiveProxy(t, infos[3].uid);
    assert t.proxies[infos[2].uid] != t.proxies[infos[3].uid];
  }

  lemma {:induction false} ActsAddNoChain(w: World, events: seq<Event>, login: string -> SessionTable.Login)
    requires LegalRun(w, events, login) && events != [] && events[0].Spawn?
    requires forall e :: e in events[1..] ==> e.Act?
    ensures |After(w, events, login).chains| == |w.chains| + 1
  {
    RunCountsMessages(w, events, login);
    NoSpawns(events[1..]);
  }

  lemma {:induction false} NoSpawns(events: seq<Event>)
    requires forall e :: e in events ==> e.Act?
    ensures SpawnsOf(events) == []
    decreases |events|
  {
    if events != [] {
      assert events[0] in events;
      NoSpawns(events[1..]);
    }
  }
}
