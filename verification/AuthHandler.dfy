/** The gateway's authentication handler: log in, keep the session alive with pings, log in again when a ping
    fails, and log out once when cancelled. */
module AuthHandler {
  import opened Models
  import Heartbeat

  /** A remote call of the handler and whether it succeeded; a login counts as failed unless the client is
      authenticated afterwards. */
  datatype Call = Login(ok: bool) | Ping(ok: bool) | Logout(ok: bool)

  // ----- The language of the traces

  /** One turn of the handler's loop that does not end it. */
  datatype Turn = Denied | Lost(pings: nat)

  /** n answered pings and then the rest. */
  function PongsThen(n: nat, rest: seq<Call>): seq<Call> {
    if n == 0 then rest else [Ping(true)] + PongsThen(n - 1, rest)
  }

  function TurnThen(turn: Turn, rest: seq<Call>): seq<Call> {
    match turn
    case Denied => [Login(false)] + rest
    case Lost(n) => [Login(true)] + PongsThen(n, [Ping(false)] + rest)
  }

  /** (login-fail | login-ok ping-ok* ping-fail)*, then possibly login-ok ping-ok*, then one logout. */
  function Word(turns: seq<Turn>, cancelled: Option<nat>, out: bool): seq<Call>
    decreases |turns|
  {
    if turns != [] then TurnThen(turns[0], Word(turns[1..], cancelled, out))
    else
      match cancelled
      case None => [Logout(out)]
      case Some(n) => [Login(true)] + PongsThen(n, [Logout(out)])
  }

  // ----- What the handler does, given the outcome of every call and the number of checks before cancellation

  function Outer(outcome: nat -> bool, n: nat, checks: nat): seq<Call>
    decreases checks
  {
    if checks == 0 then [Logout(outcome(n))]
    else if outcome(n) then [Login(true)] + Inner(outcome, n + 1, checks - 1)
    else [Login(false)] + Outer(outcome, n + 1, checks - 1)
  }

  function Inner(outcome: nat -> bool, n: nat, checks: nat): seq<Call>
    decreases checks
  {
    if checks == 0 then [Logout(outcome(n))]
    else if outcome(n) then [Ping(true)] + Inner(outcome, n + 1, checks - 1)
    else [Ping(false)] + Outer(outcome, n + 1, checks - 1)
  }

  /** Every run speaks the language. */
  lemma {:induction false} OuterIsWord(outcome: nat -> bool, n: nat, checks: nat)
    returns (turns: seq<Turn>, cancelled: Option<nat>, out: bool)
    ensures Outer(outcome, n, checks) == Word(turns, cancelled, out)
    decreases checks
  {
    if checks == 0 {
      turns, cancelled, out := [], None, outcome(n);
    } else if outcome(n) {
      turns, cancelled, out := InnerIsWord(outcome, n + 1, checks - 1, 0);
    } else {
      var rest, c, o := OuterIsWord(outcome, n + 1, checks - 1);
      turns, cancelled, out := [Denied] + rest, c, o;
      assert turns[1..] == rest;
    }
  }

  lemma {:induction false} InnerIsWord(outcome: nat -> bool, n: nat, checks: nat, pings: nat)
    returns (turns: seq<Turn>, cancelled: Option<nat>, out: bool)
    ensures [Login(true)] + PongsThen(pings, Inner(outcome, n, checks)) == Word(turns, cancelled, out)
    decreases checks
  {
    if checks == 0 {
      turns, cancelled, out := [], Some(pings), outcome(n);
    } else if outcome(n) {
      OnePongMore(pings, Inner(outcome, n + 1, checks - 1));
      turns, cancelled, out := InnerIsWord(outcome, n + 1, checks - 1, pings + 1);
    } else {
      var rest, c, o := OuterIsWord(outcome, n + 1, checks - 1);
      turns, cancelled, out := [Lost(pings)] + rest, c, o;
      assert turns[1..] == rest;
    }
  }

  lemma {:induction false} OnePongMore(n: nat, rest: seq<Call>)
    ensures PongsThen(n, [Ping(true)] + rest) == PongsThen(n + 1, rest)
  {
    if n > 0 {
      OnePongMore(n - 1, rest);
    }
  }

  ghost predicate Gives(outcome: nat -> bool, n: nat, word: seq<Call>) {
    forall i :: 0 <= i < |word| ==> outcome(n + i) == word[i].ok
  }

  lemma {:induction false} GivesTail(outcome: nat -> bool, n: nat, first: Call, rest: seq<Call>)
    requires Gives(outcome, n, [first] + rest)
    ensures outcome(n) == first.ok && Gives(outcome, n + 1, rest)
  {
    var word := [first] + rest;
    assert outcome(n + 0) == word[0].ok;
    forall i | 0 <= i < |rest| ensures outcome(n + 1 + i) == rest[i].ok {
      assert word[i + 1] == rest[i];
      assert outcome(n + (i + 1)) == word[i + 1].ok;
    }
  }

  /** And every word of the language is spoken by some run: the outcomes read off the word, and cancellation
      after as many checks as there are calls before the logout. */
  lemma {:induction false} WordIsOuter(outcome: nat -> bool, n: nat, turns: seq<Turn>, cancelled: Option<nat>,
                                       out: bool)
    requires Gives(outcome, n, Word(turns, cancelled, out))
    ensures Outer(outcome, n, |Word(turns, cancelled, out)| - 1) == Word(turns, cancelled, out)
    decreases |turns|, 1
  {
    if turns != [] {
      var rest := Word(turns[1..], cancelled, out);
      if turns[0].Denied? {
        GivesTail(outcome, n, Login(false), rest);
        WordIsOuter(outcome, n + 1, turns[1..], cancelled, out);
      } else {
        GivesTail(outcome, n, Login(true), PongsThen(turns[0].pings, [Ping(false)] + rest));
        LostIsInner(outcome, n + 1, turns[0].pings, turns[1..], cancelled, out);
      }
    } else if cancelled.Some? {
      GivesTail(outcome, n, Login(true), PongsThen(cancelled.value, [Logout(out)]));
      CancelledIsInner(outcome, n + 1, cancelled.value, out);
    } else {
      GivesTail(outcome, n, Logout(out), []);
    }
  }

  lemma {:induction false} LostIsInner(outcome: nat -> bool, n: nat, pings: nat, turns: seq<Turn>,
                                       cancelled: Option<nat>, out: bool)
    requires Gives(outcome, n, PongsThen(pings, [Ping(false)] + Word(turns, cancelled, out)))
    ensures var said := PongsThen(pings, [Ping(false)] + Word(turns, cancelled, out));
      Inner(outcome, n, |said| - 1) == said
    decreases |turns|, 2, pings
  {
    var rest := Word(turns, cancelled, out);
    if pings == 0 {
      GivesTail(outcome, n, Ping(false), rest);
      WordIsOuter(outcome, n + 1, turns, cancelled, out);
    } else {
      GivesTail(outcome, n, Ping(true), PongsThen(pings - 1, [Ping(false)] + rest));
      LostIsInner(outcome, n + 1, pings - 1, turns, cancelled, out);
    }
  }

  lemma {:induction false} CancelledIsInner(outcome: nat -> bool, n: nat, pings: nat, out: bool)
    requires Gives(outcome, n, PongsThen(pings, [Logout(out)]))
    ensures Inner(outcome, n, |PongsThen(pings, [Logout(out)])| - 1) == PongsThen(pings, [Logout(out)])
    decreases pings
  {
    if pings == 0 {
      GivesTail(outcome, n, Logout(out), []);
    } else {
      GivesTail(outcome, n, Ping(true), PongsThen(pings - 1, [Logout(out)]));
      CancelledIsInner(outcome, n + 1, pings - 1, out);
    }
  }

  /** The traces of the handler, over all outcomes and cancellation points, are exactly the words. */
  lemma {:induction false} TraceLanguage(word: seq<Call>)
    ensures (exists outcome: nat -> bool, checks: nat :: word == Outer(outcome, 0, checks)) <==>
      (exists turns, cancelled, out :: word == Word(turns, cancelled, out))
  {
    if outcome: nat -> bool, checks: nat :| word == Outer(outcome, 0, checks) {
      var turns, cancelled, out := OuterIsWord(outcome, 0, checks);
    }
    if turns, cancelled, out :| word == Word(turns, cancelled, out) {
      var outcome: nat -> bool := (i: nat) => i < |word| && word[i].ok;
      WordIsOuter(outcome, 0, turns, cancelled, out);
    }
  }

  // ----- The handler

  lemma {:induction false} OuterSaid(outcome: nat -> bool, calls: seq<Call>, checks: nat)
    requires checks > 0
    ensures var ok := outcome(|calls|);
      var said := calls + [Login(ok)];
      calls + Outer(outcome, |calls|, checks) ==
        said + if ok then Inner(outcome, |said|, checks - 1) else Outer(outcome, |said|, checks - 1)
  {
    var ok := outcome(|calls|);
    var rest := if ok then Inner(outcome, |calls| + 1, checks - 1) else Outer(outcome, |calls| + 1, checks - 1);
    assert calls + ([Login(ok)] + rest) == calls + [Login(ok)] + rest;
  }

  lemma {:induction false} InnerSaid(outcome: nat -> bool, calls: seq<Call>, checks: nat)
    requires checks > 0
    ensures var ok := outcome(|calls|);
      var said := calls + [Ping(ok)];
      calls + Inner(outcome, |calls|, checks) ==
        said + if ok then Inner(outcome, |said|, checks - 1) else Outer(outcome, |said|, checks - 1)
  {
    var ok := outcome(|calls|);
    var rest := if ok then Inner(outcome, |calls| + 1, checks - 1) else Outer(outcome, |calls| + 1, checks - 1);
    assert calls + ([Ping(ok)] + rest) == calls + [Ping(ok)] + rest;
  }

  /** Cancelled from some check on. */
  class CancellationToken {
    var checksLeft: nat

    constructor (checks: nat)
      ensures checksLeft == checks
    {
      checksLeft := checks;
    }

    method IsCancelled() returns (cancelled: bool)
      modifies this
      ensures cancelled <==> old(checksLeft) == 0
      ensures checksLeft == if cancelled then 0 else old(checksLeft) - 1
    {
      cancelled := checksLeft == 0;
      if !cancelled {
        checksLeft := checksLeft - 1;
      }
    }
  }

  /** The remote side: call number n succeeds as `outcome` says, ping number n takes the time `timing` says. */
  class Authenticator {
    const outcome: nat -> bool
    const timing: nat -> Heartbeat.Ping
    var now: int
    var calls: seq<Call>
    var pings: seq<Heartbeat.Ping>
    var renewals: seq<int>              // when each ping reached the controller

    constructor (outcome: nat -> bool, timing: nat -> Heartbeat.Ping, now: int)
      ensures this.outcome == outcome && this.timing == timing && this.now == now
      ensures calls == [] && pings == [] && renewals == []
    {
      this.outcome, this.timing, this.now := outcome, timing, now;
      calls, pings, renewals := [], [], [];
    }

    method Login() returns (ok: bool)
      modifies this`calls
      ensures ok == outcome(old(|calls|)) && calls == old(calls) + [Call.Login(ok)]
    {
      ok := outcome(|calls|);
      calls := calls + [Call.Login(ok)];
    }

    method Logout() returns (ok: bool)
      modifies this`calls
      ensures ok == outcome(old(|calls|)) && calls == old(calls) + [Call.Logout(ok)]
    {
      ok := outcome(|calls|);
      calls := calls + [Call.Logout(ok)];
    }

    method Ping() returns (ok: bool)
      modifies this
      ensures ok == outcome(old(|calls|)) && calls == old(calls) + [Call.Ping(ok)]
      ensures var p := timing(old(|pings|));
        && pings == old(pings) + [p]
        && renewals == old(renewals) + [old(now) + p.forth]
        && now == old(now) + p.forth + p.back
    {
      ok := outcome(|calls|);
      var p := timing(|pings|);
      calls, pings, renewals := calls + [Call.Ping(ok)], pings + [p], renewals + [now + p.forth];
      now := now + p.forth + p.back;
    }
  }

  /** When the answer to the last ping arrives. */
  function Answered(last: int, back: nat, pings: seq<Heartbeat.Ping>): int
    decreases |pings|
  {
    if pings == [] then last + back
    else Answered(last + Heartbeat.PingGap(back, pings[0]), pings[0].back, pings[1..])
  }

  lemma {:induction false} OnePingMore(last: int, back: nat, pings: seq<Heartbeat.Ping>, p: Heartbeat.Ping)
    ensures var next := Answered(last, back, pings) + Heartbeat.PingGap(0, p);
      && Heartbeat.Renewals(last, back, pings + [p]) == Heartbeat.Renewals(last, back, pings) + [next]
      && Answered(last, back, pings + [p]) == next + p.back
    decreases |pings|
  {
    if pings == [] {
      assert pings + [p] == [p] && [p][1..] == [];
    } else {
      assert (pings + [p])[1..] == pings[1..] + [p];
      OnePingMore(last + Heartbeat.PingGap(back, pings[0]), pings[0].back, pings[1..], p);
    }
  }

  /** Since `start` the pings went out, and renewed the session, when the pauses between them say. */
  ghost predicate OnSchedule(start: int, now: int, pings: seq<Heartbeat.Ping>, pings': seq<Heartbeat.Ping>,
                             renewals: seq<int>, renewals': seq<int>)
  {
    && pings <= pings'
    && renewals' == renewals + Heartbeat.Renewals(start, 0, pings'[|pings|..])
    && now == Answered(start, 0, pings'[|pings|..])
  }

  lemma {:induction false} OnScheduleOneMore(start: int, pings: seq<Heartbeat.Ping>, pings': seq<Heartbeat.Ping>,
                          renewals: seq<int>, renewals': seq<int>, now: int, p: Heartbeat.Ping)
    requires OnSchedule(start, now, pings, pings', renewals, renewals')
    ensures var at := now + Heartbeat.PingGap(0, p);
      OnSchedule(start, at + p.back, pings, pings' + [p], renewals, renewals' + [at])
  {
    OnePingMore(start, 0, pings'[|pings|..], p);
    assert (pings' + [p])[|pings|..] == pings'[|pings|..] + [p];
  }

  class AuthManager {
    const client: Authenticator
    const token: CancellationToken

    constructor (client: Authenticator, token: CancellationToken)
      ensures this.client == client && this.token == token
    {
      this.client, this.token := client, token;
    }

    method Authenticate() returns (ok: bool)
      modifies client`calls
      ensures ok == client.outcome(old(|client.calls|)) && client.calls == old(client.calls) + [Login(ok)]
    {
      ok := client.Login();
    }

    /** The rest of the pause since the last answer, and then one ping. */
    method PingAfterPause(lastPing: int, ghost start: int, ghost pings: seq<Heartbeat.Ping>, ghost renewals: seq<int>)
      returns (ok: bool)
      requires client.now == lastPing
      requires OnSchedule(start, client.now, pings, client.pings, renewals, client.renewals)
      modifies client
      ensures ok == client.outcome(old(|client.calls|)) && client.calls == old(client.calls) + [Ping(ok)]
      ensures OnSchedule(start, client.now, pings, client.pings, renewals, client.renewals)
    {
      var p := client.timing(|client.pings|);
      OnScheduleOneMore(start, pings, client.pings, renewals, client.renewals, client.now, p);
      client.now := client.now + p.busy;
      var nextPingIn := Heartbeat.GetNextPingDuration(client.now - lastPing);
      client.now := client.now + nextPingIn + p.late;
      ok := client.Ping();
    }

    /** Pings until one fails or the token is cancelled; the pings renew the session at the times the pause
        between them gives. */
    method KeepAlive() returns (ok: bool)
      modifies client, token
      ensures OnSchedule(old(client.now), client.now, old(client.pings), client.pings,
                         old(client.renewals), client.renewals)
      ensures ok ==> token.checksLeft == 0
      ensures !ok ==> token.checksLeft < old(token.checksLeft)
      ensures old(client.calls) + Inner(client.outcome, old(|client.calls|), old(token.checksLeft)) ==
        client.calls +
        if ok then [Call.Logout(client.outcome(|client.calls|))]
        else Outer(client.outcome, |client.calls|, token.checksLeft)
    {
      var lastPing := client.now;
      ghost var pings, start, renewals := client.pings, client.now, client.renewals;
      ghost var spoken := client.calls + Inner(client.outcome, |client.calls|, token.checksLeft);
      assert client.pings[|pings|..] == [];
      var cancelled := token.IsCancelled();
      while !cancelled
        invariant lastPing == client.now
        invariant OnSchedule(start, client.now, pings, client.pings, renewals, client.renewals)
        invariant cancelled ==> token.checksLeft == 0
        invariant token.checksLeft < old(token.checksLeft) || cancelled
        invariant spoken == client.calls +
          Inner(client.outcome, |client.calls|, if cancelled then 0 else token.checksLeft + 1)
        decreases !cancelled, token.checksLeft
      {
        InnerSaid(client.outcome, client.calls, token.checksLeft + 1);
        var answered := PingAfterPause(lastPing, start, pings, renewals);
        if !answered {
          return false;
        }
        lastPing := client.now;
        cancelled := token.IsCancelled();
      }
      return true;
    }

    method Logout() returns (ok: bool)
      modifies client`calls
      ensures ok == client.outcome(old(|client.calls|)) && client.calls == old(client.calls) + [Call.Logout(ok)]
    {
      ok := client.Logout();
    }
  }

  /** Every finished run of the handler: its calls are a word of the language. */
  method StartAuthHandler(client: Authenticator, token: CancellationToken)
    requires client.calls == []
    modifies client, token
    ensures client.calls == Outer(client.outcome, 0, old(token.checksLeft))
    ensures exists turns, cancelled, out :: client.calls == Word(turns, cancelled, out)
  {
    var manager := new AuthManager(client, token);
    ghost var spoken := Outer(client.outcome, 0, token.checksLeft);
    var cancelled := token.IsCancelled();
    while !cancelled
      invariant cancelled ==> token.checksLeft == 0
      invariant spoken == client.calls +
        Outer(client.outcome, |client.calls|, if cancelled then 0 else token.checksLeft + 1)
      decreases !cancelled, token.checksLeft
    {
      OuterSaid(client.outcome, client.calls, token.checksLeft + 1);
      var authenticated := manager.Authenticate();
      if authenticated {
        var kept := manager.KeepAlive();
        if kept {
          break;
        }
      }
      cancelled := token.IsCancelled();
    }
    var out := manager.Logout();
    assert client.calls == spoken;
    ghost var turns, ended, ok := OuterIsWord(client.outcome, 0, old(token.checksLeft));
  }
}
