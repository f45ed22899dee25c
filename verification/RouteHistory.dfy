/** What becomes of every nonce over a whole run of the route repository. */
module RouteHistory {
  import opened Models
  import opened RouteTable

  // ----- One step per operation: conservation and single redemption

  datatype Op =
    | Initialize(conversation: Conversation, now: int)
    | Finalize(id: string)
    | StoreRoute(id: string, route: Route, now: int)
    | Redeem(nonce: string)
    | Sweep(now: int)

  /** The table with a record of what happened to the nonces so far. */
  datatype History = History(table: Table, stored: set<string>, redeemed: set<string>, swept: set<string>)

  const START := History(EMPTY, {}, {}, {})

  function Redeems(h: History, op: Op): set<string> {
    if op.Redeem? && op.nonce in h.table.routes then {op.nonce} else {}
  }

  function Expires(h: History, op: Op): set<string> {
    if op.Sweep? then set n | n in h.table.routes && h.table.routes[n].IsExpired(op.now) else {}
  }

  function Effect(t: Table, op: Op): Table {
    match op
    case Initialize(conversation, now) => SetConversation(t, conversation, now)
    case Finalize(id) => RemoveConversation(t, id)
    case StoreRoute(id, route, now) => SetRoute(t, id, route, now)
    case Redeem(nonce) => if nonce in t.routes then RemoveRoute(t, nonce) else t
    case Sweep(now) => Swept(t, now)
  }

  function Next(h: History, op: Op): History {
    History(
      Effect(h.table, op),
      h.stored + (if op.StoreRoute? then {op.route.nonce} else {}),
      h.redeemed + Redeems(h, op),
      h.swept + Expires(h, op))
  }

  function Run(h: History, ops: seq<Op>): History
    decreases |ops|
  {
    if ops == [] then h else Run(Next(h, ops[0]), ops[1..])
  }

  /** Nonces are generated fresh, and a conversation starts without routes. */
  ghost predicate Legal(h: History, op: Op) {
    && (op.StoreRoute? ==> op.route.nonce !in h.stored)
    && (op.Initialize? ==> op.conversation.routes == [])
  }

  ghost predicate LegalRun(h: History, ops: seq<Op>)
    decreases |ops|
  {
    ops != [] ==> Legal(h, ops[0]) && LegalRun(Next(h, ops[0]), ops[1..])
  }

  ghost predicate Conserved(h: History) {
    && h.stored == h.table.routes.Keys + h.redeemed + h.swept
    && h.table.routes.Keys !! h.redeemed
    && h.table.routes.Keys !! h.swept
    && h.redeemed !! h.swept
    && (forall n :: n in h.table.routes ==> h.table.routes[n].value.nonce == n)
    && ListedNoncesStored(h)
  }

  ghost predicate ListedNoncesStored(h: History) {
    forall id, i :: id in h.table.conversations && 0 <= i < |h.table.conversations[id].value.routes| ==>
      h.table.conversations[id].value.routes[i].nonce in h.stored
  }

  lemma {:induction false} NextConserved(h: History, op: Op)
    requires Conserved(h) && Legal(h, op)
    ensures Conserved(Next(h, op))
  {
    assert ListedNoncesStored(Next(h, op));
  }

  /** Every nonce ever stored, also by a set_route that answered None for a missing conversation, is
      outstanding, redeemed or swept, and only one of them. */
  lemma {:induction false} RoutesConserved(h: History, ops: seq<Op>)
    requires Conserved(h) && LegalRun(h, ops)
    ensures Conserved(Run(h, ops))
    decreases |ops|
  {
    if ops != [] {
      NextConserved(h, ops[0]);
      RoutesConserved(Next(h, ops[0]), ops[1..]);
    }
  }

  /** How often redeeming `nonce` succeeds in a run. */
  function Successes(h: History, ops: seq<Op>, nonce: string): nat
    decreases |ops|
  {
    if ops == [] then 0
    else (if nonce in Redeems(h, ops[0]) then 1 else 0) + Successes(Next(h, ops[0]), ops[1..], nonce)
  }

  /** Over any run a nonce is redeemed at most once, and once exactly when it ends among the redeemed ones. */
  lemma {:induction false} RedeemedOnce(h: History, ops: seq<Op>, nonce: string)
    requires Conserved(h) && LegalRun(h, ops)
    ensures nonce in h.redeemed ==> nonce in Run(h, ops).redeemed
    ensures Successes(h, ops, nonce) == if nonce in Run(h, ops).redeemed - h.redeemed then 1 else 0
    decreases |ops|
  {
    if ops != [] {
      NextConserved(h, ops[0]);
      RedeemedOnce(Next(h, ops[0]), ops[1..], nonce);
    }
  }

  // ----- At lock granularity: redeem_route looks a nonce up under one lock and erases it under another

  datatype Event =
    | Opened(conversation: Conversation, now: int)
    | Closed(id: string)
    | Stored(id: string, route: Route, now: int)
    | LookedUp(redeemer: nat, nonce: string, hit: bool)
    | Erased(redeemer: nat, nonce: string)
    | SweptAt(now: int)

  function After(trace: seq<Event>, n: nat): Table
    requires n <= |trace|
  {
    if n == 0 then EMPTY
    else
      var t := After(trace, n - 1);
      match trace[n - 1]
      case Opened(conversation, now) => SetConversation(t, conversation, now)
      case Closed(id) => RemoveConversation(t, id)
      case Stored(id, route, now) => SetRoute(t, id, route, now)
      case LookedUp(_, _, _) => t
      case Erased(_, nonce) => RemoveRoute(t, nonce)
      case SweptAt(now) => Swept(t, now)
  }

  ghost predicate Stores(e: Event, nonce: string) {
    e.Stored? && e.route.nonce == nonce
  }

  ghost predicate Drops(trace: seq<Event>, n: nat, nonce: string)
    requires n < |trace|
  {
    var t := After(trace, n);
    || (trace[n].Erased? && trace[n].nonce == nonce)
    || (trace[n].SweptAt? && nonce in t.routes && t.routes[nonce].IsExpired(trace[n].now))
  }

  /** A trace of any number of concurrent redeemers: lookups report what is there, nonces are stored once, and a
      redeemer looks up once and erases its nonce at most once, after a hit. */
  ghost predicate Trace(trace: seq<Event>) {
    LookupsRight(trace) && StoredOnce(trace) && RedeemersRight(trace)
  }

  ghost predicate LookupsRight(trace: seq<Event>) {
    forall n :: 0 <= n < |trace| && trace[n].LookedUp? ==>
      (trace[n].hit <==> trace[n].nonce in After(trace, n).routes)
  }

  ghost predicate StoredOnce(trace: seq<Event>) {
    forall m, n :: 0 <= m < n < |trace| && trace[m].Stored? && trace[n].Stored? ==>
      trace[m].route.nonce != trace[n].route.nonce
  }

  ghost predicate RedeemersRight(trace: seq<Event>) {
    && (forall m, n :: 0 <= m < n < |trace| && trace[m].LookedUp? && trace[n].LookedUp? ==>
        trace[m].redeemer != trace[n].redeemer)
    && (forall m, n :: 0 <= m < n < |trace| && trace[m].Erased? && trace[n].Erased? ==>
        trace[m].redeemer != trace[n].redeemer)
    && (forall n :: 0 <= n < |trace| && trace[n].Erased? ==> exists m :: 0 <= m < n && HitBy(trace[m], trace[n]))
  }

  ghost predicate HitBy(lookup: Event, erasure: Event)
    requires erasure.Erased?
  {
    lookup == LookedUp(erasure.redeemer, erasure.nonce, true)
  }

  ghost predicate StoredAndKept(trace: seq<Event>, i: nat, n: nat, nonce: string)
    requires n <= |trace|
  {
    i < n && Stores(trace[i], nonce) && forall m :: i < m < n ==> !Drops(trace, m, nonce)
  }

  lemma {:induction false} OutstandingStep(trace: seq<Event>, n: nat, nonce: string)
    requires n < |trace|
    ensures nonce in After(trace, n + 1).routes <==>
      Stores(trace[n], nonce) || (nonce in After(trace, n).routes && !Drops(trace, n, nonce))
  {
  }

  lemma {:induction false} OutstandingIff(trace: seq<Event>, n: nat, nonce: string)
    requires n <= |trace|
    ensures nonce in After(trace, n).routes <==> exists i: nat :: StoredAndKept(trace, i, n, nonce)
  {
    if n > 0 {
      OutstandingIff(trace, n - 1, nonce);
      OutstandingStep(trace, n - 1, nonce);
      if Stores(trace[n - 1], nonce) {
        assert StoredAndKept(trace, n - 1, n, nonce);
      } else {
        KeptOneMore(trace, n, n - 1, nonce);
      }
    }
  }

  lemma {:induction false} KeptOneMore(trace: seq<Event>, n: nat, prior: nat, nonce: string)
    requires n == prior + 1 && n <= |trace| && !Stores(trace[prior], nonce)
    ensures (exists i: nat :: StoredAndKept(trace, i, n, nonce)) <==>
      (exists i: nat :: StoredAndKept(trace, i, prior, nonce)) && !Drops(trace, prior, nonce)
  {
    if i: nat :| StoredAndKept(trace, i, n, nonce) {
      assert StoredAndKept(trace, i, prior, nonce);
    }
    if !Drops(trace, prior, nonce) {
      if i: nat :| StoredAndKept(trace, i, prior, nonce) {
        assert StoredAndKept(trace, i, n, nonce);
      }
    }
  }

  /** A lookup hits exactly when the nonce was stored before and neither erased nor swept since: after one
      redeemer's erasure every further lookup fails. */
  lemma {:induction false} LookupHitsIff(trace: seq<Event>, n: nat)
    requires LookupsRight(trace) && n < |trace| && trace[n].LookedUp?
    ensures trace[n].hit <==> exists i: nat :: StoredAndKept(trace, i, n, trace[n].nonce)
  {
    OutstandingIff(trace, n, trace[n].nonce);
  }

  ghost predicate LooksUp(trace: seq<Event>, n: nat, nonce: string) {
    n < |trace| && trace[n].LookedUp? && trace[n].nonce == nonce
  }

  ghost predicate Hits(trace: seq<Event>, n: nat, nonce: string) {
    LooksUp(trace, n, nonce) && trace[n].hit
  }

  /** The nonce stays from one position to the other. */
  ghost predicate Undropped(trace: seq<Event>, a: nat, b: nat, nonce: string)
    requires b <= |trace|
  {
    forall m :: a < m < b ==> !Drops(trace, m, nonce)
  }

  lemma {:induction false} NotStoredAgain(trace: seq<Event>, a: nat, m: nat, nonce: string)
    requires StoredOnce(trace) && a <= m < |trace| && nonce in After(trace, a).routes
    ensures !Stores(trace[m], nonce)
  {
    OutstandingIff(trace, a, nonce);
    var s: nat :| StoredAndKept(trace, s, a, nonce);
    assert Stores(trace[s], nonce);
  }

  lemma {:induction false} StaysIff(trace: seq<Event>, a: nat, b: nat, nonce: string)
    requires StoredOnce(trace) && a < b <= |trace| && nonce in After(trace, a).routes && !Drops(trace, a, nonce)
    ensures nonce in After(trace, b).routes <==> Undropped(trace, a, b, nonce)
    decreases b
  {
    var last: nat := b - 1;
    NotStoredAgain(trace, a, last, nonce);
    OutstandingStep(trace, last, nonce);
    if a < last {
      StaysIff(trace, a, last, nonce);
      assert Undropped(trace, a, b, nonce) <==> Undropped(trace, a, last, nonce) && !Drops(trace, last, nonce);
    }
  }

  /** After a hit, another lookup of the same nonce hits exactly when nothing dropped the nonce in between. */
  lemma {:induction false} NextHitsIff(trace: seq<Event>, a: nat, b: nat, nonce: string)
    requires LookupsRight(trace) && StoredOnce(trace)
    requires a < b && Hits(trace, a, nonce) && LooksUp(trace, b, nonce)
    ensures Hits(trace, b, nonce) <==> Undropped(trace, a, b, nonce)
  {
    StaysIff(trace, a, b, nonce);
  }

  /** After one redeemer's erasure every further lookup fails, for the rest of the trace. */
  lemma {:induction false} NoHitAfterErasure(trace: seq<Event>, m: nat, n: nat)
    requires Trace(trace) && m < n < |trace|
    requires trace[m].Erased? && LooksUp(trace, n, trace[m].nonce)
    ensures !trace[n].hit
  {
    var a :| 0 <= a < m && HitBy(trace[a], trace[m]);
    assert Drops(trace, m, trace[n].nonce);
    NextHitsIff(trace, a, n, trace[n].nonce);
  }

  /** redeem_route answers the route to the redeemers whose lookup hit. */
  ghost predicate Succeeds(trace: seq<Event>, redeemer: nat, nonce: string) {
    LookedUp(redeemer, nonce, true) in trace
  }

  ghost predicate AtMostOneSucceeds(trace: seq<Event>, nonce: string) {
    forall r, r' :: Succeeds(trace, r, nonce) && Succeeds(trace, r', nonce) ==> r == r'
  }

  /** Some redeemer looks the nonce up between another's successful lookup and the first drop after it. */
  ghost predicate Overtakes(trace: seq<Event>, a: nat, b: nat, nonce: string) {
    a < b && Hits(trace, a, nonce) && LooksUp(trace, b, nonce) && Undropped(trace, a, b, nonce)
  }

  /** Redemption at lock granularity: a nonce is redeemed at most once if and only if no redeemer looks it up
      between another's successful lookup and the first erasure or sweep of the nonce after that. */
  lemma {:induction false} RedeemedOnceIff(trace: seq<Event>, nonce: string)
    requires Trace(trace)
    ensures AtMostOneSucceeds(trace, nonce) <==> !exists a: nat, b: nat :: Overtakes(trace, a, b, nonce)
  {
    if a: nat, b: nat :| Overtakes(trace, a, b, nonce) {
      NextHitsIff(trace, a, b, nonce);
      assert Succeeds(trace, trace[a].redeemer, nonce) && Succeeds(trace, trace[b].redeemer, nonce);
    } else {
      forall r, r' | Succeeds(trace, r, nonce) && Succeeds(trace, r', nonce) ensures r == r' {
        var a :| 0 <= a < |trace| && trace[a] == LookedUp(r, nonce, true);
        var b :| 0 <= b < |trace| && trace[b] == LookedUp(r', nonce, true);
        TwoHitsOvertake(trace, if a < b then a else b, if a < b then b else a, nonce);
      }
    }
  }

  lemma {:induction false} TwoHitsOvertake(trace: seq<Event>, a: nat, b: nat, nonce: string)
    requires Trace(trace) && a <= b && Hits(trace, a, nonce) && Hits(trace, b, nonce)
    ensures a == b || Overtakes(trace, a, b, nonce)
  {
    if a < b {
      NextHitsIff(trace, a, b, nonce);
    }
  }

  ghost predicate ErasedBetween(trace: seq<Event>, a: nat, b: nat, redeemer: nat, nonce: string)
    requires b <= |trace|
  {
    exists m :: a < m < b && trace[m] == Erased(redeemer, nonce)
  }

  /** Every redeemer that hits erases before the next one looks the nonce up. */
  ghost predicate TakeTurns(trace: seq<Event>, nonce: string) {
    forall a: nat, b: nat :: a < b && Hits(trace, a, nonce) && LooksUp(trace, b, nonce) ==>
      ErasedBetween(trace, a, b, trace[a].redeemer, nonce)
  }

  /** Redeemers that take turns redeem a nonce at most once. */
  lemma {:induction false} TurnsRedeemOnce(trace: seq<Event>, nonce: string)
    requires Trace(trace) && TakeTurns(trace, nonce)
    ensures AtMostOneSucceeds(trace, nonce)
  {
    RedeemedOnceIff(trace, nonce);
    forall a: nat, b: nat ensures !Overtakes(trace, a, b, nonce) {
      if a < b && Hits(trace, a, nonce) && LooksUp(trace, b, nonce) {
        ErasedIsDropped(trace, a, b, trace[a].redeemer, nonce);
      }
    }
  }

  lemma {:induction false} ErasedIsDropped(trace: seq<Event>, a: nat, b: nat, redeemer: nat, nonce: string)
    requires b <= |trace| && ErasedBetween(trace, a, b, redeemer, nonce)
    ensures !Undropped(trace, a, b, nonce)
  {
    var m :| a < m < b && trace[m] == Erased(redeemer, nonce);
    assert Drops(trace, m, nonce);
  }

  /** Two redeemers whose lookups both come before either erasure both succeed. */
  lemma {:induction false} TwoRedeemersBothHit(route: Route, id: string, nonce: string) returns (trace: seq<Event>)
    requires route.nonce == nonce
    ensures Trace(trace) && !AtMostOneSucceeds(trace, nonce)
    ensures trace == [Stored(id, route, 0), LookedUp(0, nonce, true), LookedUp(1, nonce, true),
                      Erased(0, nonce), Erased(1, nonce)]
  {
    trace := [Stored(id, route, 0), LookedUp(0, nonce, true), LookedUp(1, nonce, true),
              Erased(0, nonce), Erased(1, nonce)];
    assert nonce in After(trace, 1).routes;
    assert After(trace, 2) == After(trace, 1);
    assert HitBy(trace[1], trace[3]) && HitBy(trace[2], trace[4]);
    assert trace[1] in trace && trace[2] in trace;
    assert Succeeds(trace, 0, nonce) && Succeeds(trace, 1, nonce);
  }

  // ----- Between the guard that a conversation exists and the unwrap that relies on it

  /** The conversation is finalized, or swept as expired. */
  ghost predicate Ends(trace: seq<Event>, n: nat, id: string)
    requires n < |trace|
  {
    var t := After(trace, n);
    || trace[n] == Closed(id)
    || (trace[n].SweptAt? && id in t.conversations && t.conversations[id].IsExpired(trace[n].now))
  }

  ghost predicate Opens(e: Event, id: string) {
    e.Opened? && e.conversation.id == id
  }

  ghost predicate EndsForGood(trace: seq<Event>, m: nat, b: nat, id: string)
    requires b <= |trace|
  {
    m < b && Ends(trace, m, id) && forall k :: m < k < b ==> !Opens(trace[k], id)
  }

  lemma {:induction false} PresentStep(trace: seq<Event>, n: nat, id: string)
    requires n < |trace|
    ensures id in After(trace, n + 1).conversations <==>
      Opens(trace[n], id) || (id in After(trace, n).conversations && !Ends(trace, n, id))
  {
  }

  /** A call that found its conversation before the a-th event and unwraps it before the b-th panics if and only
      if it was finalized or swept in between, and not opened again. */
  lemma {:induction false} UnwrapPanicsIff(trace: seq<Event>, a: nat, b: nat, id: string)
    requires a <= b <= |trace| && id in After(trace, a).conversations
    ensures id !in After(trace, b).conversations <==> exists m: nat :: a <= m && EndsForGood(trace, m, b, id)
    decreases b
  {
    if a < b {
      var last: nat := b - 1;
      UnwrapPanicsIff(trace, a, last, id);
      PresentStep(trace, last, id);
      if Ends(trace, last, id) {
        assert EndsForGood(trace, last, b, id);
      }
      if m: nat :| a <= m && EndsForGood(trace, m, last, id) {
        assert Opens(trace[last], id) || EndsForGood(trace, m, b, id);
      }
      if m: nat :| a <= m && EndsForGood(trace, m, b, id) {
        assert m == last || EndsForGood(trace, m, last, id);
      }
    }
  }

  /** Two redeemers of one end route: the first finalizes, and the second, which had checked the conversation and
      found the route, no longer finds the conversation to report its sender from. */
  lemma {:induction false} SecondRedeemerPanics(conversation: Conversation, route: Route) returns (trace: seq<Event>)
    requires route.endRoute
    ensures var id, nonce := conversation.id, route.nonce;
      && trace == [Opened(conversation, 0), Stored(id, route, 0), LookedUp(0, nonce, true), LookedUp(1, nonce, true),
                   Erased(0, nonce), Closed(id), Erased(1, nonce)]
      && Trace(trace)
      && id in After(trace, 3).conversations
      && id !in After(trace, 7).conversations
  {
    var id, nonce := conversation.id, route.nonce;
    trace := [Opened(conversation, 0), Stored(id, route, 0), LookedUp(0, nonce, true), LookedUp(1, nonce, true),
              Erased(0, nonce), Closed(id), Erased(1, nonce)];
    assert nonce in After(trace, 2).routes && id in After(trace, 2).conversations;
    assert After(trace, 3) == After(trace, 2);
    assert HitBy(trace[2], trace[4]) && HitBy(trace[3], trace[6]);
    assert Ends(trace, 5, id) && EndsForGood(trace, 5, 7, id);
    UnwrapPanicsIff(trace, 3, 7, id);
  }
}
