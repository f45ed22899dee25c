/** The relay as one state machine: the controller, any number of messages under way, and everybody else. A
    message is a chain of nested calls from the sender through proxies to the recipient; each step of a chain
    is one remote call or one hand-over, and steps of different chains and of other parties interleave freely. */
module Relay {
  import opened Models
  import SessionTable
  import opened Controller

  datatype Command = Send | Status | Unknown

  datatype Phase =
    | Starting                 // send_message or get_status was called
    | Opened                   // the conversation is initialized
    | Holding                  // the sender or a proxy holds a route that was handed to it
    | Arrived                  // a proxy executes the command and has yet to redeem
    | Asking                   // the proxy has redeemed and asks for the next route
    | Landing                  // the recipient received the text and has yet to redeem
    | Delivered
    | Ended                    // a command that is not forwarded was executed
    | Failed

  datatype Chain = Chain(
    key: string,                        // the sender's access key
    to: string,
    content: Bytes,
    command: Command,
    phase: Phase,
    from: string,                       // the uid of the sender's session
    id: Option<string>,                 // the conversation
    atSender: bool,                     // the route held is the sender's, not a proxy's
    asker: string,                      // the access key of whoever acts
    carried: Bytes,                     // the bytes as passed along
    askers: seq<string>,                // who asked for each route
    hops: seq<SessionInfo>,             // the session each route leads to
    handed: seq<RouteResponse>,         // each route as answered
    sources: seq<Option<string>>,       // what each proxy's redemption answered
    landed: Option<(string, Bytes)>)    // the sender reported and the bytes received

  function NewChain(key: string, to: string, content: Bytes, command: Command): Chain {
    Chain(key, to, content, command, Starting, "", None, true, key, [], [], [], [], [], None)
  }

  datatype World = World(controller: Tables, chains: seq<Chain>, usedIds: set<string>, usedNonces: set<string>)

  const START := World(EMPTY, [], {}, {})

  /** What the environment decides for one step of a chain. */
  datatype Move = Move(id: string, choice: Choice, now: int, proxyKey: string)

  datatype Event =
    | Spawn(key: string, to: string, content: Bytes, command: Command)
    | Act(chain: nat, move: Move)
    | Break(chain: nat)                 // a connection fails, a proxy is not authenticated, a process dies
    | Other(call: Call)                 // anybody's login, ping, logout, sweep, or call about other conversations

  // ----- One step of a chain

  function LastHanded(chain: Chain): RouteResponse
    requires chain.handed != []
  {
    chain.handed[|chain.handed| - 1]
  }

  predicate CanAct(chain: Chain) {
    match chain.phase
    case Starting => true
    case Opened => chain.id.Some?
    case Holding => chain.handed != []
    case Arrived => chain.id.Some? && chain.handed != []
    case Asking => chain.id.Some?
    case Landing => chain.id.Some? && chain.handed != []
    case _ => false
  }

  /** The remote call a step makes, if it makes one. */
  function CallOf(chain: Chain, move: Move): Option<Call>
    requires CanAct(chain)
  {
    match chain.phase
    case Starting => Some(Initializing(chain.key, chain.to, move.id, move.now))
    case Holding => None
    case Arrived => Some(Redeeming(chain.asker, chain.id.value, LastHanded(chain).nonce, move.now))
    case Landing => Some(Redeeming(chain.asker, chain.id.value, LastHanded(chain).nonce, move.now))
    case _ => Some(Routing(chain.asker, chain.id.value, move.choice, move.now))
  }

  function Fails(chain: Chain): Chain {
    chain.(phase := Failed)
  }

  function AfterInitialize(c: Tables, chain: Chain, move: Move): Chain {
    match Initialize(c, chain.key, chain.to, move.id, move.now).1
    case Err(_) => Fails(chain)
    case Ok(id) => chain.(phase := Opened, id := Some(id), from := c.sessions.sessions[chain.key].value.uid)
  }

  function AfterRoute(c: Tables, chain: Chain, move: Move): Chain
    requires chain.id.Some?
  {
    var id := chain.id.value;
    match RouteCall(c, chain.asker, id, move.choice, move.now).1
    case Err(_) => Fails(chain)
    case Ok(response) =>
      var hop := NextHop(c, chain.asker, c.routes.conversations[id].value, move.choice).value;
      chain.(phase := Holding, askers := chain.askers + [chain.asker], hops := chain.hops + [hop],
             handed := chain.handed + [response])
  }

  /** The sender sends the command to wherever its route leads; a proxy lands the text on an end route and
      sends the command on otherwise. Whoever receives a command acts under its own access key. */
  function AfterHolding(chain: Chain, move: Move): Chain
    requires chain.handed != []
  {
    if !chain.atSender && LastHanded(chain).endRoute then chain.(phase := Landing)
    else
      chain.(phase := Arrived, atSender := false, asker := move.proxyKey,
             carried := if chain.atSender then chain.content else chain.carried)
  }

  function AfterProxyRedeems(c: Tables, chain: Chain, move: Move): Chain
    requires chain.id.Some? && chain.handed != []
  {
    match Redeem(c, chain.asker, chain.id.value, LastHanded(chain).nonce, move.now).1
    case Err(_) => Fails(chain)
    case Ok(source) =>
      chain.(phase := if chain.command == Send then Asking else Ended, sources := chain.sources + [source])
  }

  /** The recipient redeems with the access key the proxy sent along; without source info its unwrap fails. */
  function AfterLanding(c: Tables, chain: Chain, move: Move): Chain
    requires chain.id.Some? && chain.handed != []
  {
    match Redeem(c, chain.asker, chain.id.value, LastHanded(chain).nonce, move.now).1
    case Err(_) => Fails(chain)
    case Ok(None) => Fails(chain)
    case Ok(Some(from)) => chain.(phase := Delivered, landed := Some((from, chain.carried)))
  }

  function Acted(c: Tables, chain: Chain, move: Move): Chain
    requires CanAct(chain)
  {
    match chain.phase
    case Starting => AfterInitialize(c, chain, move)
    case Holding => AfterHolding(chain, move)
    case Arrived => AfterProxyRedeems(c, chain, move)
    case Landing => AfterLanding(c, chain, move)
    case _ => AfterRoute(c, chain, move)
  }

  /** What a step records is what its call answered: the id, the route and the stored session it leads to, the source
      info, and on landing the source with the bytes as they were carried. A refused call fails the chain. */
  lemma {:induction false} ActedRecords(c: Tables, chain: Chain, move: Move, login: string -> SessionTable.Login)
    requires CanAct(chain) && SessionTable.Sound(c.sessions, login)
    ensures var chain' := Acted(c, chain, move);
      match chain.phase
      case Starting =>
        (match Initialize(c, chain.key, chain.to, move.id, move.now).1
         case Ok(id) => chain'.phase == Opened && chain'.id == Some(id)
         case Err(_) => chain'.phase == Failed)
      case Holding =>
        && chain'.carried == (if chain.atSender then chain.content else chain.carried)
        && (chain'.phase == Landing <==> !chain.atSender && LastHanded(chain).endRoute)
        && chain'.asker == (if chain'.phase == Landing then chain.asker else move.proxyKey)
      case Arrived =>
        (match Redeem(c, chain.asker, chain.id.value, LastHanded(chain).nonce, move.now).1
         case Ok(source) => chain'.phase in {Asking, Ended} && chain'.sources == chain.sources + [source]
         case Err(_) => chain'.phase == Failed)
      case Landing =>
        (match Redeem(c, chain.asker, chain.id.value, LastHanded(chain).nonce, move.now).1
         case Ok(Some(from)) => chain'.phase == Delivered && chain'.landed == Some((from, chain.carried))
         case _ => chain'.phase == Failed && chain'.landed == chain.landed)
      case _ =>
        (match RouteCall(c, chain.asker, chain.id.value, move.choice, move.now).1
         case Ok(route) =>
           && chain'.phase == Holding
           && chain'.handed == chain.handed + [route]
           && chain'.askers == chain.askers + [chain.asker]
           && chain'.hops == chain.hops + [chain'.hops[|chain.hops|]]
           && var hop := chain'.hops[|chain.hops|];
           && SessionTable.Lookup(c.sessions, hop.accessKey) == Some(hop)
           && hop.settings == route.settings
         case Err(_) => chain'.phase == Failed)
  {
    if chain.phase in {Opened, Asking} && chain.id.value in c.routes.conversations {
      HopIsStored(c, chain.asker, c.routes.conversations[chain.id.value].value, move.choice, login);
    }
  }

  // ----- One step of the world

  function IdsOf(call: Call): set<string> {
    if call.Initializing? then {call.id} else {}
  }

  function NoncesOf(call: Call): set<string> {
    if call.Routing? then {call.choice.nonce} else {}
  }

  function Served(w: World, call: Call): World {
    World(Serve(w.controller, call), w.chains, w.usedIds + IdsOf(call), w.usedNonces + NoncesOf(call))
  }

  function Next(w: World, e: Event): World
    requires Enabled(w, e)
  {
    match e
    case Spawn(key, to, content, command) => w.(chains := w.chains + [NewChain(key, to, content, command)])
    case Act(i, move) =>
      var call := CallOf(w.chains[i], move);
      var served := if call.Some? then Served(w, call.value) else w;
      served.(chains := w.chains[i := Acted(w.controller, w.chains[i], move)])
    case Break(i) => w.(chains := w.chains[i := Fails(w.chains[i])])
    case Other(call) => Served(w, call)
  }

  predicate Enabled(w: World, e: Event) {
    match e
    case Act(i, _) => i < |w.chains| && CanAct(w.chains[i])
    case Break(i) => i < |w.chains| && CanAct(w.chains[i])
    case _ => true
  }

  ghost predicate OwnsId(chain: Chain, id: string) {
    chain.id == Some(id)
  }

  ghost predicate OwnsNonce(chain: Chain, nonce: string) {
    exists k :: 0 <= k < |chain.handed| && chain.handed[k].nonce == nonce
  }

  /** Ids and nonces are generated fresh; the proxy index is iterated in some order; an access key is issued to
      one login. */
  ghost predicate Generated(w: World, call: Call, login: string -> SessionTable.Login) {
    && IdsOf(call) !! w.usedIds
    && NoncesOf(call) !! w.usedNonces
    && (call.Routing? ==> Enumerates(call.choice.order, w.controller.sessions.proxies.Keys))
    && (call.OnSessions? ==> SessionTable.Issued(call.op, login))
  }

  /** Nobody but a chain's own parties uses its conversation id and its nonces. */
  ghost predicate Outside(call: Call, chain: Chain) {
    && (call.Routing? ==> !OwnsId(chain, call.id))
    && (call.Redeeming? ==> !OwnsId(chain, call.id) && !OwnsNonce(chain, call.nonce))
  }

  ghost predicate Legal(w: World, e: Event, login: string -> SessionTable.Login) {
    && Enabled(w, e)
    && match e
       case Act(i, move) =>
         var call := CallOf(w.chains[i], move);
         call.Some? ==> Generated(w, call.value, login)
       case Other(call) =>
         Generated(w, call, login) && forall i :: 0 <= i < |w.chains| ==> Outside(call, w.chains[i])
       case _ => true
  }

  // ----- The invariant

  /** The conversation and the nonces of a chain, as the controller has them: possibly swept, never altered. */
  ghost predicate Matches(c: Tables, chain: Chain) {
    chain.id.Some? && chain.id.value in c.routes.conversations ==>
      var conversation := c.routes.conversations[chain.id.value].value;
      && conversation.from == chain.from
      && conversation.to == Target(chain.to)
      && |conversation.routes| == |chain.handed|
  }

  ghost predicate Outstanding(c: Tables, chain: Chain) {
    chain.handed != [] && LastHanded(chain).nonce in c.routes.routes ==>
      c.routes.routes[LastHanded(chain).nonce].value.endRoute == LastHanded(chain).endRoute
  }

  /** The first three routes lead to proxies other than their askers, the fourth to the recipient. */
  ghost predicate HopRight(chain: Chain, k: nat)
    requires k < |chain.hops| == |chain.askers| == |chain.handed|
  {
    && (chain.handed[k].endRoute <==> k == 3)
    && chain.handed[k].settings == chain.hops[k].settings
    && (k < 3 ==> chain.hops[k].component == Proxy && chain.hops[k].accessKey != chain.askers[k])
    && (k == 3 ==> chain.hops[k].component == Client && chain.hops[k].uid == Target(chain.to))
  }

  ghost predicate HopsRight(chain: Chain) {
    && |chain.hops| == |chain.askers| == |chain.handed| <= 4
    && (chain.askers != [] ==> chain.askers[0] == chain.key)
    && (forall k :: 0 <= k < |chain.hops| ==> HopRight(chain, k))
    && (forall k :: 0 <= k < |chain.sources| ==> chain.sources[k] == None)
  }

  /** How far each phase has come. */
  ghost predicate PhaseRight(c: Tables, chain: Chain) {
    var n, redeemed := |chain.handed|, |chain.sources|;
    match chain.phase
    case Starting => chain == NewChain(chain.key, chain.to, chain.content, chain.command)
    case Opened => chain.id.Some? && n == 0 && redeemed == 0 && chain.atSender && chain.asker == chain.key
    case Holding => chain.id.Some? && n == redeemed + 1 && (chain.atSender <==> n == 1) && Content(chain)
    case Arrived => chain.id.Some? && 1 <= n <= 3 && n == redeemed + 1 && !chain.atSender && Content(chain)
    case Asking => chain.id.Some? && 1 <= n <= 3 && n == redeemed && !chain.atSender && Content(chain)
    case Landing => chain.id.Some? && n == 4 && redeemed == 3 && !chain.atSender && Content(chain)
    case Delivered =>
      && chain.id.Some? && n == 4 && redeemed == 3 && chain.command == Send
      && chain.landed == Some((chain.from, chain.content))
      && chain.id.value !in c.routes.conversations
    case Ended => chain.command != Send
    case Failed => true
  }

  ghost predicate Content(chain: Chain) {
    && (!chain.atSender ==> chain.carried == chain.content)
    && (chain.phase == Asking || chain.phase == Landing || (chain.phase == Holding && !chain.atSender) ==>
        chain.command == Send)
    && (chain.phase == Holding || chain.phase == Landing ==>
        chain.askers != [] && chain.asker == chain.askers[|chain.askers| - 1])
  }

  /** The sender recorded is the one the sender's access key was issued to. */
  ghost predicate SenderRight(chain: Chain, login: string -> SessionTable.Login) {
    chain.id.Some? ==> chain.from == login(chain.key).uid
  }

  ghost predicate ChainRight(c: Tables, chain: Chain) {
    Matches(c, chain) && Outstanding(c, chain) && HopsRight(chain) && PhaseRight(c, chain)
  }

  ghost predicate Used(w: World) {
    && w.controller.routes.conversations.Keys <= w.usedIds
    && w.controller.routes.routes.Keys <= w.usedNonces
    && (forall i :: 0 <= i < |w.chains| && w.chains[i].id.Some? ==> w.chains[i].id.value in w.usedIds)
    && (forall i, k :: 0 <= i < |w.chains| && 0 <= k < |w.chains[i].handed| ==>
        w.chains[i].handed[k].nonce in w.usedNonces)
  }

  ghost predicate Apart(a: Chain, b: Chain) {
    && (a.id.Some? ==> a.id != b.id)
    && (forall j, k :: 0 <= j < |a.handed| && 0 <= k < |b.handed| ==> a.handed[j].nonce != b.handed[k].nonce)
  }

  ghost predicate AllApart(w: World) {
    forall i, j :: 0 <= i < |w.chains| && 0 <= j < |w.chains| && i != j ==> Apart(w.chains[i], w.chains[j])
  }

  ghost predicate Inv(w: World, login: string -> SessionTable.Login) {
    && SessionTable.Sound(w.controller.sessions, login)
    && RoutesRight(w.controller.routes)
    && Used(w)
    && AllApart(w)
    && (forall i :: 0 <= i < |w.chains| ==> ChainRight(w.controller, w.chains[i]))
    && (forall i :: 0 <= i < |w.chains| ==> SenderRight(w.chains[i], login))
  }

  // ----- A call from outside a chain leaves it alone

  ghost predicate Untouched(c: Tables, c': Tables, chain: Chain) {
    && (chain.id.Some? && chain.id.value in c'.routes.conversations ==>
        chain.id.value in c.routes.conversations &&
        c'.routes.conversations[chain.id.value].value == c.routes.conversations[chain.id.value].value)
    && (forall k :: 0 <= k < |chain.handed| && chain.handed[k].nonce in c'.routes.routes ==>
        chain.handed[k].nonce in c.routes.routes &&
        c'.routes.routes[chain.handed[k].nonce].value == c.routes.routes[chain.handed[k].nonce].value)
  }

  lemma {:induction false} OutsideUntouched(c: Tables, call: Call, chain: Chain)
    requires Outside(call, chain)
    requires call.Initializing? ==> !OwnsId(chain, call.id)
    requires call.Routing? ==> !OwnsNonce(chain, call.choice.nonce)
    ensures Untouched(c, Serve(c, call), chain)
  {
  }

  lemma {:induction false} UntouchedStaysRight(c: Tables, c': Tables, chain: Chain)
    requires ChainRight(c, chain) && Untouched(c, c', chain)
    ensures ChainRight(c', chain)
  {
  }

  // ----- A chain's own steps

  lemma {:induction false} InitializeKeepsRight(c: Tables, chain: Chain, move: Move)
    requires ChainRight(c, chain) && chain.phase == Starting
    requires move.id !in c.routes.conversations
    ensures ChainRight(Serve(c, CallOf(chain, move).value), AfterInitialize(c, chain, move))
  {
  }

  lemma {:induction false} RouteKeepsHops(c: Tables, chain: Chain, move: Move, login: string -> SessionTable.Login)
    requires SessionTable.Sound(c.sessions, login) && RoutesRight(c.routes)
    requires ChainRight(c, chain) && CanAct(chain) && (chain.phase == Opened || chain.phase == Asking)
    requires Enumerates(move.choice.order, c.sessions.proxies.Keys)
    requires RouteCall(c, chain.asker, chain.id.value, move.choice, move.now).1.Ok?
    ensures HopsRight(AfterRoute(c, chain, move))
  {
    var chain' := AfterRoute(c, chain, move);
    var conversation := c.routes.conversations[chain.id.value].value;
    NextHopRight(c, chain.asker, conversation, move.choice, login);
    var n := |chain.handed|;
    assert |conversation.routes| == n && conversation.to == Target(chain.to);
    assert HopRight(chain', n);
    forall k | 0 <= k < |chain'.hops| ensures HopRight(chain', k) {
      if k < n {
        assert HopRight(chain, k);
      }
    }
  }

  lemma {:induction false} RouteKeepsRight(c: Tables, chain: Chain, move: Move, login: string -> SessionTable.Login)
    requires SessionTable.Sound(c.sessions, login) && RoutesRight(c.routes)
    requires ChainRight(c, chain) && CanAct(chain) && (chain.phase == Opened || chain.phase == Asking)
    requires Enumerates(move.choice.order, c.sessions.proxies.Keys) && move.choice.nonce !in c.routes.routes
    ensures ChainRight(Serve(c, CallOf(chain, move).value), AfterRoute(c, chain, move))
  {
    if RouteCall(c, chain.asker, chain.id.value, move.choice, move.now).1.Ok? {
      RouteKeepsHops(c, chain, move, login);
    } else {
      FailsKeepsRight(c, chain);
    }
  }

  lemma {:induction false} HoldingKeepsRight(c: Tables, chain: Chain, move: Move)
    requires ChainRight(c, chain) && chain.phase == Holding && chain.handed != []
    ensures ChainRight(c, AfterHolding(chain, move))
  {
    var last := |chain.handed| - 1;
    assert HopRight(chain, last);
    var chain' := AfterHolding(chain, move);
    forall k | 0 <= k < |chain'.hops| ensures HopRight(chain', k) {
      assert HopRight(chain, k);
    }
  }

  lemma {:induction false} ProxyRedeemsKeepsRight(c: Tables, chain: Chain, move: Move)
    requires ChainRight(c, chain) && CanAct(chain) && chain.phase == Arrived
    ensures ChainRight(Serve(c, CallOf(chain, move).value), AfterProxyRedeems(c, chain, move))
  {
    assert HopRight(chain, |chain.handed| - 1);
    var chain' := AfterProxyRedeems(c, chain, move);
    forall k | 0 <= k < |chain'.hops| ensures HopRight(chain', k) {
      assert HopRight(chain, k);
    }
  }

  lemma {:induction false} LandingKeepsRight(c: Tables, chain: Chain, move: Move)
    requires ChainRight(c, chain) && CanAct(chain) && chain.phase == Landing
    ensures ChainRight(Serve(c, CallOf(chain, move).value), AfterLanding(c, chain, move))
  {
    assert HopRight(chain, |chain.handed| - 1);
    var chain' := AfterLanding(c, chain, move);
    forall k | 0 <= k < |chain'.hops| ensures HopRight(chain', k) {
      assert HopRight(chain, k);
    }
  }

  lemma {:induction false} ActKeepsChainRight(w: World, i: nat, move: Move, login: string -> SessionTable.Login)
    requires Inv(w, login) && Legal(w, Act(i, move), login)
    ensures ChainRight(Next(w, Act(i, move)).controller, Next(w, Act(i, move)).chains[i])
  {
    var c, chain := w.controller, w.chains[i];
    assert ChainRight(c, chain);
    if chain.phase == Starting {
      assert move.id in IdsOf(CallOf(chain, move).value);
      InitializeKeepsRight(c, chain, move);
    } else if chain.phase == Holding {
      HoldingKeepsRight(c, chain, move);
    } else if chain.phase == Arrived {
      ProxyRedeemsKeepsRight(c, chain, move);
    } else if chain.phase == Landing {
      LandingKeepsRight(c, chain, move);
    } else {
      assert move.choice.nonce in NoncesOf(CallOf(chain, move).value);
      RouteKeepsRight(c, chain, move, login);
    }
  }

  // ----- Every step of the world keeps the invariant

  lemma {:induction false} ServedKeepsTables(w: World, call: Call, login: string -> SessionTable.Login)
    requires SessionTable.Sound(w.controller.sessions, login) && RoutesRight(w.controller.routes) && Used(w)
    requires Generated(w, call, login)
    ensures SessionTable.Sound(Served(w, call).controller.sessions, login)
    ensures RoutesRight(Served(w, call).controller.routes)
    ensures Used(Served(w, call))
  {
    ServeRight(w.controller, call);
    ServeSound(w.controller, call, login);
    ServeUsed(w, call);
  }

  lemma {:induction false} ServeSound(c: Tables, call: Call, login: string -> SessionTable.Login)
    requires SessionTable.Sound(c.sessions, login)
    requires call.OnSessions? ==> SessionTable.Issued(call.op, login)
    ensures SessionTable.Sound(Serve(c, call).sessions, login)
  {
    match call
    case OnSessions(op) => SessionTable.ApplySound(c.sessions, op, login);
    case Initializing(key, _, _, now) => SessionTable.ApplySound(c.sessions, SessionTable.GetOp(key, now), login);
    case Routing(key, _, _, now) => SessionTable.ApplySound(c.sessions, SessionTable.GetOp(key, now), login);
    case Redeeming(key, _, _, now) => SessionTable.ApplySound(c.sessions, SessionTable.GetOp(key, now), login);
    case SweepingRoutes(_) =>
  }

  lemma {:induction false} ServeUsed(w: World, call: Call)
    requires Used(w)
    ensures Used(Served(w, call))
  {
  }

  lemma {:induction false} OtherKeepsInv(w: World, call: Call, login: string -> SessionTable.Login)
    requires Inv(w, login) && Legal(w, Other(call), login)
    ensures Inv(Next(w, Other(call)), login)
  {
    ServedKeepsTables(w, call, login);
    forall i | 0 <= i < |w.chains| ensures ChainRight(Serve(w.controller, call), w.chains[i]) {
      FreshNotOwned(w, call, i, login);
      OutsideUntouched(w.controller, call, w.chains[i]);
      UntouchedStaysRight(w.controller, Serve(w.controller, call), w.chains[i]);
    }
  }

  lemma {:induction false} FreshNotOwned(w: World, call: Call, i: nat, login: string -> SessionTable.Login)
    requires Used(w) && Generated(w, call, login) && i < |w.chains|
    ensures call.Initializing? ==> !OwnsId(w.chains[i], call.id)
    ensures call.Routing? ==> !OwnsNonce(w.chains[i], call.choice.nonce)
  {
    if call.Initializing? {
      assert call.id in IdsOf(call);
    }
    if call.Routing? {
      assert call.choice.nonce in NoncesOf(call);
    }
  }

  /** A chain's own call is from outside every other chain. */
  lemma {:induction false} OwnCallOutsideOthers(w: World, i: nat, j: nat, move: Move)
    requires AllApart(w) && i < |w.chains| && j < |w.chains| && i != j
    requires CanAct(w.chains[i]) && CallOf(w.chains[i], move).Some?
    ensures Outside(CallOf(w.chains[i], move).value, w.chains[j])
  {
    assert Apart(w.chains[i], w.chains[j]);
  }

  lemma {:induction false} ActKeepsOthersRight(w: World, i: nat, j: nat, move: Move,
                                               login: string -> SessionTable.Login)
    requires Inv(w, login) && Legal(w, Act(i, move), login)
    requires j < |w.chains| && i != j
    ensures ChainRight(Next(w, Act(i, move)).controller, w.chains[j])
  {
    var call := CallOf(w.chains[i], move);
    if call.Some? {
      OwnCallOutsideOthers(w, i, j, move);
      FreshNotOwned(w, call.value, j, login);
      OutsideUntouched(w.controller, call.value, w.chains[j]);
      UntouchedStaysRight(w.controller, Serve(w.controller, call.value), w.chains[j]);
    }
  }

  /** What a step adds to a chain's id and nonces is what its call generated. */
  lemma {:induction false} ActedOwns(c: Tables, chain: Chain, move: Move)
    requires CanAct(chain)
    ensures var chain' := Acted(c, chain, move);
      && (chain'.id == chain.id || (chain'.id == Some(move.id) && chain.phase == Starting))
      && (chain'.handed == chain.handed ||
          (CallOf(chain, move).Some? && CallOf(chain, move).value.Routing? && |chain'.handed| == |chain.handed| + 1 &&
           chain'.handed[..|chain.handed|] == chain.handed && LastHanded(chain').nonce == move.choice.nonce))
  {
  }

  lemma {:induction false} ActKeepsApart(w: World, i: nat, j: nat, move: Move, login: string -> SessionTable.Login)
    requires Used(w) && AllApart(w) && Legal(w, Act(i, move), login)
    requires j < |w.chains| && i != j
    ensures Apart(Next(w, Act(i, move)).chains[i], w.chains[j])
    ensures Apart(w.chains[j], Next(w, Act(i, move)).chains[i])
  {
    var chain, chain' := w.chains[i], Next(w, Act(i, move)).chains[i];
    ActedOwns(w.controller, chain, move);
    assert Apart(chain, w.chains[j]) && Apart(w.chains[j], chain);
    if CallOf(chain, move).Some? {
      FreshNotOwned(w, CallOf(chain, move).value, j, login);
    }
    forall a, b | 0 <= a < |chain'.handed| && 0 <= b < |w.chains[j].handed|
      ensures chain'.handed[a].nonce != w.chains[j].handed[b].nonce
    {
      if a < |chain.handed| {
        assert chain'.handed[a] == chain.handed[a];
      }
    }
  }

  lemma {:induction false} ActKeepsUsed(w: World, i: nat, move: Move, login: string -> SessionTable.Login)
    requires Used(w) && Legal(w, Act(i, move), login)
    ensures Used(Next(w, Act(i, move)))
  {
    var chain, call, w' := w.chains[i], CallOf(w.chains[i], move), Next(w, Act(i, move));
    ActedOwns(w.controller, chain, move);
    if call.Some? {
      ServeUsed(w, call.value);
      assert call.value.Initializing? ==> IdsOf(call.value) == {move.id};
      assert call.value.Routing? ==> NoncesOf(call.value) == {move.choice.nonce};
    }
    forall k | 0 <= k < |w'.chains[i].handed| ensures w'.chains[i].handed[k].nonce in w'.usedNonces {
      if k < |chain.handed| {
        assert w'.chains[i].handed[k] == chain.handed[k];
      }
    }
  }

  lemma {:induction false} ActKeepsAllRight(w: World, i: nat, move: Move, login: string -> SessionTable.Login)
    requires Inv(w, login) && Legal(w, Act(i, move), login)
    ensures var w' := Next(w, Act(i, move));
      forall j :: 0 <= j < |w'.chains| ==> ChainRight(w'.controller, w'.chains[j])
  {
    var w' := Next(w, Act(i, move));
    forall j | 0 <= j < |w'.chains| ensures ChainRight(w'.controller, w'.chains[j]) {
      if j == i {
        ActKeepsChainRight(w, i, move, login);
      } else {
        ActKeepsOthersRight(w, i, j, move, login);
      }
    }
  }

  lemma {:induction false} ActKeepsAllApart(w: World, i: nat, move: Move, login: string -> SessionTable.Login)
    requires Used(w) && AllApart(w) && Legal(w, Act(i, move), login)
    ensures AllApart(Next(w, Act(i, move)))
  {
    var w' := Next(w, Act(i, move));
    forall a, b | 0 <= a < |w'.chains| && 0 <= b < |w'.chains| && a != b ensures Apart(w'.chains[a], w'.chains[b]) {
      if a == i {
        ActKeepsApart(w, i, b, move, login);
      } else if b == i {
        ActKeepsApart(w, i, a, move, login);
      } else {
        assert Apart(w.chains[a], w.chains[b]);
      }
    }
  }

  lemma {:induction false} ActKeepsSender(w: World, i: nat, move: Move, login: string -> SessionTable.Login)
    requires Inv(w, login) && Legal(w, Act(i, move), login)
    ensures SenderRight(Next(w, Act(i, move)).chains[i], login)
  {
    assert SenderRight(w.chains[i], login);
  }

  lemma {:induction false} ActKeepsInv(w: World, i: nat, move: Move, login: string -> SessionTable.Login)
    requires Inv(w, login) && Legal(w, Act(i, move), login)
    ensures Inv(Next(w, Act(i, move)), login)
  {
    if CallOf(w.chains[i], move).Some? {
      ServedKeepsTables(w, CallOf(w.chains[i], move).value, login);
    }
    ActKeepsUsed(w, i, move, login);
    ActKeepsAllRight(w, i, move, login);
    ActKeepsAllApart(w, i, move, login);
    ActKeepsSender(w, i, move, login);
  }

  lemma {:induction false} SpawnKeepsInv(w: World, e: Event, login: string -> SessionTable.Login)
    requires Inv(w, login) && e.Spawn?
    ensures Inv(Next(w, e), login)
  {
    var w' := Next(w, e);
    forall i | 0 <= i < |w'.chains|
      ensures ChainRight(w'.controller, w'.chains[i]) && SenderRight(w'.chains[i], login)
    {
      if i < |w.chains| {
        assert ChainRight(w.controller, w.chains[i]);
      }
    }
    forall a, b | 0 <= a < |w'.chains| && 0 <= b < |w'.chains| && a != b ensures Apart(w'.chains[a], w'.chains[b]) {
      if a < |w.chains| && b < |w.chains| {
        assert Apart(w.chains[a], w.chains[b]);
      }
    }
  }

  lemma {:induction false} BreakKeepsInv(w: World, i: nat, login: string -> SessionTable.Login)
    requires Inv(w, login) && Enabled(w, Break(i))
    ensures Inv(Next(w, Break(i)), login)
  {
    var w' := Next(w, Break(i));
    forall j | 0 <= j < |w'.chains|
      ensures ChainRight(w'.controller, w'.chains[j]) && SenderRight(w'.chains[j], login)
    {
      assert ChainRight(w.controller, w.chains[j]);
      FailsKeepsRight(w.controller, w.chains[j]);
    }
    forall a, b | 0 <= a < |w'.chains| && 0 <= b < |w'.chains| && a != b ensures Apart(w'.chains[a], w'.chains[b]) {
      assert Apart(w.chains[a], w.chains[b]);
    }
  }

  lemma {:induction false} NextKeepsInv(w: World, e: Event, login: string -> SessionTable.Login)
    requires Inv(w, login) && Legal(w, e, login)
    ensures Inv(Next(w, e), login)
  {
    match e
    case Spawn(_, _, _, _) => SpawnKeepsInv(w, e, login);
    case Act(i, move) => ActKeepsInv(w, i, move, login);
    case Break(i) => BreakKeepsInv(w, i, login);
    case Other(call) => OtherKeepsInv(w, call, login);
  }

  lemma {:induction false} FailsKeepsRight(c: Tables, chain: Chain)
    requires ChainRight(c, chain)
    ensures ChainRight(c, Fails(chain))
  {
    forall k | 0 <= k < |chain.hops| ensures HopRight(Fails(chain), k) {
      assert HopRight(chain, k);
    }
  }

  // ----- Whole runs

  ghost predicate LegalRun(w: World, events: seq<Event>, login: string -> SessionTable.Login)
    decreases |events|
  {
    events != [] ==> Legal(w, events[0], login) && LegalRun(Next(w, events[0]), events[1..], login)
  }

  ghost function After(w: World, events: seq<Event>, login: string -> SessionTable.Login): World
    requires LegalRun(w, events, login)
    decreases |events|
  {
    if events == [] then w else After(Next(w, events[0]), events[1..], login)
  }

  lemma {:induction false} RunKeepsInv(w: World, events: seq<Event>, login: string -> SessionTable.Login)
    requires Inv(w, login) && LegalRun(w, events, login)
    ensures Inv(After(w, events, login), login)
    decreases |events|
  {
    if events != [] {
      NextKeepsInv(w, events[0], login);
      RunKeepsInv(Next(w, events[0]), events[1..], login);
    }
  }

  // ----- What a chain was started for

  /** The sender, the recipient, the bytes and the command of a chain never change. */
  ghost predicate SameMessage(a: Chain, b: Chain) {
    a.key == b.key && a.to == b.to && a.content == b.content && a.command == b.command
  }

  ghost predicate StartedBy(chain: Chain, e: Event) {
    e == Spawn(chain.key, chain.to, chain.content, chain.command)
  }

  /** The messages a run starts, in order. */
  function SpawnsOf(events: seq<Event>): (spawns: seq<Event>)
    ensures forall e :: e in spawns ==> e.Spawn?
    decreases |events|
  {
    if events == [] then [] else (if events[0].Spawn? then [events[0]] else []) + SpawnsOf(events[1..])
  }

  lemma {:induction false} ActedKeepsMessage(c: Tables, chain: Chain, move: Move)
    requires CanAct(chain)
    ensures SameMessage(chain, Acted(c, chain, move))
  {
  }

  lemma {:induction false} NextKeepsMessages(w: World, e: Event)
    requires Enabled(w, e)
    ensures |Next(w, e).chains| == |w.chains| + if e.Spawn? then 1 else 0
    ensures forall i :: 0 <= i < |w.chains| ==> SameMessage(w.chains[i], Next(w, e).chains[i])
    ensures e.Spawn? ==> StartedBy(Next(w, e).chains[|w.chains|], e)
  {
    if e.Act? {
      ActedKeepsMessage(w.controller, w.chains[e.chain], e.move);
    }
  }

  lemma {:induction false} RunKeepsMessage(w: World, events: seq<Event>, i: nat, login: string -> SessionTable.Login)
    requires LegalRun(w, events, login) && i < |w.chains|
    ensures i < |After(w, events, login).chains| && SameMessage(w.chains[i], After(w, events, login).chains[i])
    decreases |events|
  {
    if events != [] {
      NextKeepsMessages(w, events[0]);
      RunKeepsMessage(Next(w, events[0]), events[1..], i, login);
    }
  }

  lemma {:induction false} RunCountsMessages(w: World, events: seq<Event>, login: string -> SessionTable.Login)
    requires LegalRun(w, events, login)
    ensures |After(w, events, login).chains| == |w.chains| + |SpawnsOf(events)|
    decreases |events|
  {
    if events != [] {
      NextKeepsMessages(w, events[0]);
      RunCountsMessages(Next(w, events[0]), events[1..], login);
    }
  }

  lemma {:induction false} NewChainIsSpawned(w: World, events: seq<Event>, i: nat, login: string -> SessionTable.Login)
    requires LegalRun(w, events, login) && i < |SpawnsOf(events)|
    requires |w.chains| + i < |After(w, events, login).chains|
    ensures StartedBy(After(w, events, login).chains[|w.chains| + i], SpawnsOf(events)[i])
    decreases |events|
  {
    var e, w' := events[0], Next(w, events[0]);
    NextKeepsMessages(w, e);
    if e.Spawn? && i == 0 {
      RunKeepsMessage(w', events[1..], |w.chains|, login);
    } else {
      NewChainIsSpawned(w', events[1..], if e.Spawn? then i - 1 else i, login);
    }
  }

  /** The chains of a run are the messages it started, in order, each for the sender, the recipient, the bytes and
      the command it was started with. */
  lemma {:induction false} ChainIsSpawned(events: seq<Event>, i: nat, login: string -> SessionTable.Login)
    requires LegalRun(START, events, login)
    ensures |After(START, events, login).chains| == |SpawnsOf(events)|
    ensures i < |SpawnsOf(events)| ==> StartedBy(After(START, events, login).chains[i], SpawnsOf(events)[i])
  {
    RunCountsMessages(START, events, login);
    if i < |SpawnsOf(events)| {
      NewChainIsSpawned(START, events, i, login);
    }
  }

  // ----- Delivery

  /** The way a message from `key` to `to` came. */
  ghost predicate Relayed(chain: Chain, key: string, to: string) {
    && |chain.hops| == |chain.askers| == |chain.handed| == 4
    && (forall k :: 0 <= k < 4 ==> chain.handed[k].settings == chain.hops[k].settings)
    && |chain.sources| == 3
    && chain.askers[0] == key
    && (forall k :: 0 <= k < 3 ==>
        chain.hops[k].component == Proxy && chain.hops[k].accessKey != chain.askers[k] && chain.sources[k] == None)
    && chain.hops[3].component == Client
    && (to != "" ==> chain.hops[3].uid == to)
    && (to == "" ==> chain.hops[3].uid == "controller_uid")
  }

  /** What `key` sent `to` somebody arrived: the bytes, with the sender's uid, and its conversation is gone. */
  ghost predicate Arrives(w: World, i: nat, key: string, to: string, content: Bytes,
                          login: string -> SessionTable.Login)
    requires i < |w.chains|
  {
    && Relayed(w.chains[i], key, to)
    && w.chains[i].landed == Some((login(key).uid, content))
    && w.chains[i].id.Some?
    && w.chains[i].id.value !in w.controller.routes.conversations
  }

  /** In every interleaving with other messages, logins, logouts, pings, sweeps, failures and foreign calls: when
      the i-th message sent is delivered, it passed exactly three proxies, none of which was its own asker or
      learned the sender; it landed on a client session of the recipient it was sent to, with the bytes sent and
      the uid of the access key it was sent with; and its conversation is gone. */
  lemma {:induction false} Delivery(events: seq<Event>, i: nat, login: string -> SessionTable.Login)
    requires LegalRun(START, events, login) && i < |After(START, events, login).chains|
    requires After(START, events, login).chains[i].phase == Delivered
    ensures i < |SpawnsOf(events)|
    ensures var sent := SpawnsOf(events)[i];
      sent.command == Send && Arrives(After(START, events, login), i, sent.key, sent.to, sent.content, login)
  {
    RunKeepsInv(START, events, login);
    ChainIsSpawned(events, i, login);
    DeliveredArrives(After(START, events, login), i, login);
  }

  lemma {:induction false} DeliveredArrives(w: World, i: nat, login: string -> SessionTable.Login)
    requires Inv(w, login) && i < |w.chains| && w.chains[i].phase == Delivered
    ensures w.chains[i].command == Send
    ensures Arrives(w, i, w.chains[i].key, w.chains[i].to, w.chains[i].content, login)
  {
    var chain := w.chains[i];
    assert ChainRight(w.controller, chain) && SenderRight(chain, login);
    assert HopRight(chain, 3);
    forall k | 0 <= k < 4 ensures chain.handed[k].settings == chain.hops[k].settings {
      assert HopRight(chain, k);
    }
    forall k | 0 <= k < 3
      ensures chain.hops[k].component == Proxy && chain.hops[k].accessKey != chain.askers[k] && chain.sources[k] == None
    {
      assert HopRight(chain, k);
    }
  }

  // ----- Proxies acting under the session they were routed to

  predicate Forwards(chain: Chain) {
    chain.phase == Holding && chain.handed != [] && (chain.atSender || !LastHanded(chain).endRoute)
  }

  /** Whoever receives a command acts under the access key of the session the route leads to. A machine that has
      logged in again meanwhile would act under a newer one. */
  ghost predicate UsesOwnKey(w: World, e: Event) {
    e.Act? && e.chain < |w.chains| && Forwards(w.chains[e.chain]) ==>
      w.chains[e.chain].hops != [] && e.move.proxyKey == LastHop(w.chains[e.chain]).accessKey
  }

  function LastHop(chain: Chain): SessionInfo
    requires chain.hops != []
  {
    chain.hops[|chain.hops| - 1]
  }

  ghost predicate OwnKeys(w: World, events: seq<Event>, login: string -> SessionTable.Login)
    requires LegalRun(w, events, login)
    decreases |events|
  {
    events != [] ==> UsesOwnKey(w, events[0]) && OwnKeys(Next(w, events[0]), events[1..], login)
  }

  /** Each asker after the first is the hop before. */
  ghost predicate AskersAreHops(chain: Chain) {
    && |chain.askers| == |chain.hops|
    && (forall k :: 0 < k < |chain.askers| ==> chain.askers[k] == chain.hops[k - 1].accessKey)
    && (chain.phase == Arrived || chain.phase == Asking ==>
        chain.hops != [] && chain.asker == LastHop(chain).accessKey)
  }

  lemma {:induction false} ActKeepsAskers(c: Tables, chain: Chain, move: Move)
    requires CanAct(chain) && ChainRight(c, chain) && AskersAreHops(chain)
    requires Forwards(chain) ==> chain.hops != [] && move.proxyKey == LastHop(chain).accessKey
    ensures AskersAreHops(Acted(c, chain, move))
  {
    if chain.phase in {Opened, Asking} {
      RoutingKeepsAskers(c, chain, move);
    }
  }

  lemma {:induction false} RoutingKeepsAskers(c: Tables, chain: Chain, move: Move)
    requires CanAct(chain) && PhaseRight(c, chain) && AskersAreHops(chain) && |chain.hops| == |chain.handed|
    requires chain.phase in {Opened, Asking}
    ensures AskersAreHops(AfterRoute(c, chain, move))
  {
  }

  lemma {:induction false} RunKeepsAskers(w: World, events: seq<Event>, login: string -> SessionTable.Login)
    requires Inv(w, login) && LegalRun(w, events, login) && OwnKeys(w, events, login)
    requires forall i :: 0 <= i < |w.chains| ==> AskersAreHops(w.chains[i])
    ensures forall i :: 0 <= i < |After(w, events, login).chains| ==> AskersAreHops(After(w, events, login).chains[i])
    decreases |events|
  {
    if events != [] {
      var e, w' := events[0], Next(w, events[0]);
      NextKeepsInv(w, e, login);
      forall i | 0 <= i < |w'.chains| ensures AskersAreHops(w'.chains[i]) {
        if e.Act? && e.chain == i {
          assert ChainRight(w.controller, w.chains[i]);
          ActKeepsAskers(w.controller, w.chains[i], e.move);
        }
      }
      RunKeepsAskers(w', events[1..], login);
    }
  }

  /** When every proxy acts under the session it was routed to, no message is routed from a proxy to itself: the
      sender and the proxies along the way are pairwise different neighbours. */
  lemma {:induction false} NeighboursDiffer(events: seq<Event>, i: nat, k: nat, login: string -> SessionTable.Login)
    requires LegalRun(START, events, login) && OwnKeys(START, events, login)
    requires i < |After(START, events, login).chains|
    requires k < 3 && k < |After(START, events, login).chains[i].hops|
    ensures var chain := After(START, events, login).chains[i];
      chain.hops[k].accessKey != if k == 0 then chain.key else chain.hops[k - 1].accessKey
  {
    RunKeepsInv(START, events, login);
    RunKeepsAskers(START, events, login);
    var w := After(START, events, login);
    assert ChainRight(w.controller, w.chains[i]) && AskersAreHops(w.chains[i]);
    assert HopRight(w.chains[i], k);
  }

  /** The recipient's unwrap of the source info never fails, and a sender is never handed the end route. */
  lemma {:induction false} NoMissingSource(events: seq<Event>, i: nat, now: int, login: string -> SessionTable.Login)
    requires LegalRun(START, events, login) && i < |After(START, events, login).chains|
    ensures var w := After(START, events, login);
      var chain := w.chains[i];
      && (chain.phase == Landing ==>
          CanAct(chain) &&
          Redeem(w.controller, chain.asker, chain.id.value, LastHanded(chain).nonce, now).1 != Ok(None))
      && (chain.phase == Holding && chain.atSender ==> chain.handed != [] && !LastHanded(chain).endRoute)
  {
    RunKeepsInv(START, events, login);
    var w := After(START, events, login);
    var chain := w.chains[i];
    assert ChainRight(w.controller, chain);
    if chain.handed != [] {
      assert HopRight(chain, |chain.handed| - 1);
    }
  }

  // ----- Termination

  /** How many steps a chain can still take: three for every route not yet handed out. */
  function Rank(chain: Chain): int {
    var left := 3 * (4 - |chain.handed|);
    match chain.phase
    case Starting => left + 2
    case Opened => left + 1
    case Holding => left + 3
    case Arrived => left + 2
    case Asking => left + 1
    case Landing => 1
    case _ => 0
  }

  lemma {:induction false} ActLowersRank(c: Tables, chain: Chain, move: Move)
    requires ChainRight(c, chain) && CanAct(chain)
    ensures 0 <= Rank(Acted(c, chain, move)) < Rank(chain) <= 14
  {
    if chain.handed != [] {
      assert HopRight(chain, |chain.handed| - 1);
    }
  }

  function ActsOf(events: seq<Event>, i: nat): nat
    decreases |events|
  {
    if events == [] then 0 else (if events[0].Act? && events[0].chain == i then 1 else 0) + ActsOf(events[1..], i)
  }

  lemma {:induction false} ActsBounded(w: World, events: seq<Event>, i: nat, login: string -> SessionTable.Login)
    requires Inv(w, login) && LegalRun(w, events, login)
    ensures ActsOf(events, i) <= if i < |w.chains| then RankOf(w.chains[i]) else 14
    decreases |events|
  {
    if events != [] {
      var w', e := Next(w, events[0]), events[0];
      NextKeepsInv(w, e, login);
      ActsBounded(w', events[1..], i, login);
      if i < |w.chains| && e.Act? && e.chain == i {
        ActLowersRank(w.controller, w.chains[i], e.move);
      }
    }
  }

  /** A terminal chain has no steps left. */
  function RankOf(chain: Chain): nat {
    if Rank(chain) < 0 then 0 else Rank(chain)
  }

  /** The mutual recursion of executing, sending and routing a command ends: whatever else happens in a run, no
      message takes more than 14 steps. */
  lemma {:induction false} ForwardingTerminates(events: seq<Event>, i: nat, login: string -> SessionTable.Login)
    requires LegalRun(START, events, login)
    ensures ActsOf(events, i) <= 14
  {
    ActsBounded(START, events, i, login);
  }
}
