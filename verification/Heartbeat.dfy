/** The pings that keep a session: exactly which heartbeats keep it from every sweep. */
module Heartbeat {
  import opened SessionTable
  import opened SessionTiming

  const PING_INTERVAL: nat := 5000

  function GetNextPingDuration(elapsed: nat): nat {
    if elapsed >= PING_INTERVAL then 0 else PING_INTERVAL - elapsed
  }

  /** One ping: how long the loop was busy before computing the pause, how much later than asked it woke up, and
      the two legs of the call; the session is renewed between them. */
  datatype Ping = Ping(busy: nat, late: nat, forth: nat, back: nat)

  function PingGap(back: nat, ping: Ping): nat {
    back + ping.busy + GetNextPingDuration(ping.busy) + ping.late + ping.forth
  }

  /** When the pings renew the session, if it was renewed at `last` and that answer took `back` to arrive. */
  function Renewals(last: int, back: nat, pings: seq<Ping>): seq<int>
    decreases |pings|
  {
    if pings == [] then []
    else
      var next := last + PingGap(back, pings[0]);
      [next] + Renewals(next, pings[0].back, pings[1..])
  }

  /** What a client can measure. */
  predicate Timely(back: nat, pings: seq<Ping>)
    decreases |pings|
  {
    pings != [] ==> PingGap(back, pings[0]) <= SESSIONS_EXPIRATION_TIME && Timely(pings[0].back, pings[1..])
  }

  /** How long after the answer before it, which took `back`, a ping renews the session: it goes out 5000 ms after that
      answer, or when the loop is no longer busy if that is later, and whatever delays it adds up. */
  lemma {:induction false} PingGapIs(back: nat, p: Ping)
    ensures PingGap(back, p) == back + (if p.busy < 5000 then 5000 else p.busy) + p.late + p.forth
  {
  }

  function BackBefore(back: nat, pings: seq<Ping>, k: nat): nat
    requires k <= |pings|
  {
    if k == 0 then back else pings[k - 1].back
  }

  /** The renewals come one such gap after the other. */
  lemma {:induction false} RenewalsSpaced(last: int, back: nat, pings: seq<Ping>, k: nat)
    requires k < |pings|
    ensures |Renewals(last, back, pings)| == |pings|
    ensures var p, times := pings[k], Renewals(last, back, pings);
      times[k] == (if k == 0 then last else times[k - 1]) +
        BackBefore(back, pings, k) + (if p.busy < 5000 then 5000 else p.busy) + p.late + p.forth
    decreases |pings|
  {
    if |pings| == 1 {
      assert pings[1..] == [];
    } else {
      RenewalsSpaced(last + PingGap(back, pings[0]), pings[0].back, pings[1..], if k == 0 then 0 else k - 1);
    }
  }

  /** Timely means every such gap is at most 10000 ms. */
  lemma {:induction false} TimelyIff(back: nat, pings: seq<Ping>)
    ensures Timely(back, pings) <==> forall k :: 0 <= k < |pings| ==>
      BackBefore(back, pings, k) + (if pings[k].busy < 5000 then 5000 else pings[k].busy) + pings[k].late +
        pings[k].forth <= 10000
    decreases |pings|
  {
    if pings != [] {
      var rest := pings[1..];
      TimelyIff(pings[0].back, rest);
      assert forall k :: 0 <= k < |rest| ==>
        rest[k] == pings[k + 1] && BackBefore(pings[0].back, rest, k) == BackBefore(back, pings, k + 1);
      forall k | 0 < k < |pings|
        ensures pings[k] == rest[k - 1] && BackBefore(back, pings, k) == BackBefore(pings[0].back, rest, k - 1)
      {
      }
    }
  }

  /** `between[n]` is what others do before the n-th renewal. */
  ghost predicate Windows(key: string, last: int, renewals: seq<int>, between: seq<seq<Op>>)
    decreases |renewals|
  {
    && |between| == |renewals|
    && (renewals != [] ==>
        && (forall op :: op in between[0] ==> Harmless(op, key, last, renewals[0]))
        && Windows(key, renewals[0], renewals[1..], between[1..]))
  }

  /** The session is found at every renewal. */
  predicate Survives(t: Table, key: string, renewals: seq<int>, between: seq<seq<Op>>)
    requires |between| == |renewals|
    decreases |renewals|
  {
    renewals != [] ==>
      var t' := Run(t, between[0]);
      key in t'.sessions && Survives(Renewed(t', key, renewals[0]), key, renewals[1..], between[1..])
  }

  lemma {:induction false} TimelySurvives(t: Table, key: string, last: int, back: nat, pings: seq<Ping>,
                                          between: seq<seq<Op>>)
    requires Alive(t, key, last) && Timely(back, pings)
    requires Windows(key, last, Renewals(last, back, pings), between)
    ensures Survives(t, key, Renewals(last, back, pings), between)
    decreases |pings|
  {
    if pings != [] {
      var renewals := Renewals(last, back, pings);
      WindowKeepsSession(t, key, last, renewals[0], between[0]);
      assert renewals[1..] == Renewals(renewals[0], pings[0].back, pings[1..]);
      var t' := Renewed(Run(t, between[0]), key, renewals[0]);
      TimelySurvives(t', key, renewals[0], pings[0].back, pings[1..], between[1..]);
    }
  }

  /** One sweep just before the first late renewal is enough. */
  lemma {:induction false} LateIsSwept(t: Table, key: string, last: int, back: nat, pings: seq<Ping>)
    returns (between: seq<seq<Op>>)
    requires key in t.sessions && t.sessions[key].ttl == SESSIONS_EXPIRATION_TIME
    requires t.sessions[key].expiresAt == last + SESSIONS_EXPIRATION_TIME
    requires !Timely(back, pings)
    ensures Windows(key, last, Renewals(last, back, pings), between)
    ensures !Survives(t, key, Renewals(last, back, pings), between)
    decreases |pings|
  {
    var renewals := Renewals(last, back, pings);
    assert renewals[1..] == Renewals(renewals[0], pings[0].back, pings[1..]);
    if PingGap(back, pings[0]) > SESSIONS_EXPIRATION_TIME {
      var sweep := [SweepOp(renewals[0])];
      assert sweep[1..] == [];
      var quiet := Quiet(key, renewals[0], renewals[1..]);
      between := [sweep] + quiet;
      assert between[1..] == quiet;
      assert key !in Run(t, between[0]).sessions;
    } else {
      var t' := Renewed(t, key, renewals[0]);
      var rest := LateIsSwept(t', key, renewals[0], pings[0].back, pings[1..]);
      between := [[]] + rest;
      assert between[1..] == rest;
    }
  }

  function Quiet(key: string, last: int, renewals: seq<int>): (between: seq<seq<Op>>)
    ensures Windows(key, last, renewals, between)
    decreases |renewals|
  {
    if renewals == [] then []
    else
      var rest := Quiet(key, renewals[0], renewals[1..]);
      assert ([[]] + rest)[1..] == rest;
      [[]] + rest
  }

  /** The pings keep the session through every placement of sweeps and of other parties' calls short of a logout
      if and only if each answer's way back, the pause, its delays and the next ping's way forth add up to at
      most 10000 ms. */
  lemma {:induction false} HeartbeatKeepsSessionIff(t: Table, key: string, last: int, back: nat, pings: seq<Ping>)
    requires key in t.sessions && t.sessions[key].ttl == SESSIONS_EXPIRATION_TIME
    requires t.sessions[key].expiresAt == last + SESSIONS_EXPIRATION_TIME
    ensures (forall between :: Windows(key, last, Renewals(last, back, pings), between) ==>
               Survives(t, key, Renewals(last, back, pings), between))
            <==> Timely(back, pings)
  {
    var renewals := Renewals(last, back, pings);
    if Timely(back, pings) {
      forall between | Windows(key, last, renewals, between) ensures Survives(t, key, renewals, between) {
        TimelySurvives(t, key, last, back, pings, between);
      }
    } else {
      var between := LateIsSwept(t, key, last, back, pings);
    }
  }

  /** Round trips with all local delays of at most 2500 ms are enough. */
  lemma {:induction false} ShortRoundTripsTimely(back: nat, pings: seq<Ping>)
    requires back <= 2500
    requires forall p :: p in pings ==> p.busy + p.late + p.forth + p.back <= 2500
    ensures Timely(back, pings)
    decreases |pings|
  {
    if pings != [] {
      assert pings[0] in pings;
      ShortRoundTripsTimely(pings[0].back, pings[1..]);
    }
  }

  /** Every heartbeat whose round trips, with all local delays, stay within `bound` is timely. */
  ghost predicate EnoughBound(bound: nat) {
    forall back, pings :: Within(back, pings, bound) ==> Timely(back, pings)
  }

  predicate Within(back: nat, pings: seq<Ping>, bound: nat) {
    back <= bound && forall p :: p in pings ==> p.busy + p.late + p.forth + p.back <= bound
  }

  /** 2500 ms is the largest such bound: beyond it a slow answer followed by a slow request is too much. */
  lemma {:induction false} BoundEnoughIff(bound: nat)
    ensures EnoughBound(bound) <==> bound <= 2500
  {
    if bound <= 2500 {
      forall back, pings | Within(back, pings, bound) ensures Timely(back, pings) {
        ShortRoundTripsTimely(back, pings);
      }
    } else {
      var pings := [Ping(0, 0, bound, 0)];
      assert Within(bound, pings, bound) && PingGap(bound, pings[0]) > 10000;
      assert !Timely(bound, pings);
    }
  }

  /** Round trips of up to the ping interval are not: a slow answer followed by a slow request leaves 15000 ms
      between two renewals. */
  lemma {:induction false} FiveSecondRoundTripsNotEnough()
    ensures var pings := [Ping(0, 0, 0, 5000), Ping(0, 0, 5000, 0)];
      && (forall p :: p in pings ==> p.busy + p.late + p.forth + p.back <= 5000)
      && Renewals(0, 0, pings) == [5000, 20000]
      && !Timely(0, pings)
  {
    var pings := [Ping(0, 0, 0, 5000), Ping(0, 0, 5000, 0)];
    assert pings[1..] == [Ping(0, 0, 5000, 0)] && pings[1..][1..] == [];
    assert Renewals(5000, 5000, pings[1..]) == [20000] + Renewals(20000, 0, []);
  }
}
