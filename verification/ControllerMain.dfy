/** The controller's loop that stores a session of its own every two seconds until cancelled, in the repository it
    shares with everybody else. */
module ControllerMain {
  import opened Models
  import SessionRepository
  import opened SessionTable
  import opened SessionTiming

  /** One call of the repository, whoever makes it. */
  method Perform(sessions: SessionRepository.InMemoryRepository, op: Op)
    requires sessions.Valid()
    modifies sessions
    ensures sessions.Valid() && sessions.State() == Apply(old(sessions.State()), op)
  {
    match op {
      case SetOp(info, now) => sessions.SetSession(info, now);
      case GetOp(key, now) => var _ := sessions.GetSession(key, now);
      case RemoveOp(key) => sessions.RemoveSession(key);
      case SweepOp(now) => sessions.KillExpiredSessions(now);
    }
  }

  method PerformAll(sessions: SessionRepository.InMemoryRepository, ops: seq<Timed>)
    requires sessions.Valid()
    modifies sessions
    ensures sessions.Valid() && sessions.State() == Run(old(sessions.State()), Ops(ops))
  {
    for i := 0 to |ops|
      invariant sessions.Valid() && sessions.State() == Run(old(sessions.State()), Ops(ops[..i]))
    {
      assert ops[..i + 1] == ops[..i] + [ops[i]];
      RunOneMore(old(sessions.State()), ops[..i], ops[i]);
      Perform(sessions, ops[i].op);
    }
    assert ops[..|ops|] == ops;
  }

  /** The loop runs once for every key generated before cancellation; `late[i]` is how much longer than asked
      its i-th pause takes, and `others[i]` is what everybody else does to the repository during that pause. */
  method RefreshUntilCancelled(sessions: SessionRepository.InMemoryRepository, uid: string, address: SocketAddr,
                               settings: ConnectionSettings, keys: seq<string>, late: seq<nat>,
                               others: seq<seq<Timed>>, start: int)
    returns (refreshes: seq<Timed>)
    requires sessions.Valid() && |late| == |others| == |keys|
    modifies sessions
    ensures sessions.Valid() && Stores(refreshes, uid, address, settings, keys)
    ensures sessions.State() == Run(old(sessions.State()), Ops(Woven(refreshes, others)))
    ensures keys != [] ==> refreshes[0].at == start
    ensures forall i :: 0 <= i < |keys| - 1 ==> refreshes[i + 1].at == refreshes[i].at + 2000 + late[i]
    ensures forall i, j :: 0 <= i < j < |keys| ==> refreshes[i].at + REFRESH_PERIOD <= refreshes[j].at
    ensures Undisturbed(keys, others) && OnTimeRun(Begin(start), Woven(refreshes, others)) ==>
      AlwaysFew(Woven(refreshes, others))
  {
    var now := start;
    refreshes := [];
    var i := 0;
    ghost var before := sessions.State();
    while i < |keys|
      invariant 0 <= i <= |keys| && sessions.Valid() && Paced(refreshes, late, start, now)
      invariant Stores(refreshes, uid, address, settings, keys[..i])
      invariant HasDone(before, sessions.State(), refreshes, others[..i])
    {
      var refresh := Timed(SetOp(SessionInfo(keys[i], uid, address, Controller, settings), now), now);
      RoundDone(before, sessions.State(), refreshes, others, i, refresh);
      StoresOneMore(refreshes, uid, address, settings, keys, i, refresh);
      PacedOneMore(refreshes, late, start, now, refresh);
      RefreshOnce(sessions, refresh, others[i]);
      refreshes := refreshes + [refresh];
      now := now + REFRESH_PERIOD + late[i];
      i := i + 1;
    }
    assert others[..|keys|] == others && keys[..|keys|] == keys;
    PacedIsSpaced(refreshes, late, start, now);
    LoopLeavesFew(refreshes, uid, address, settings, keys, others, start);
  }

  /** One refresh, and what the others do until the next. */
  method RefreshOnce(sessions: SessionRepository.InMemoryRepository, refresh: Timed, during: seq<Timed>)
    requires sessions.Valid() && refresh.op.SetOp? && refresh.op.now == refresh.at
    modifies sessions
    ensures sessions.Valid() && sessions.State() == Run(Apply(old(sessions.State()), refresh.op), Ops(during))
  {
    sessions.SetSession(refresh.op.info, refresh.at);
    PerformAll(sessions, during);
  }

  /** The repository has come from `before` to `t` by the refreshes woven with the others' calls. */
  ghost predicate HasDone(before: Table, t: Table, refreshes: seq<Timed>, others: seq<seq<Timed>>) {
    |refreshes| == |others| && t == Run(before, Ops(Woven(refreshes, others)))
  }

  lemma {:induction false} RoundDone(before: Table, t: Table, refreshes: seq<Timed>, others: seq<seq<Timed>>, i: nat,
                                     refresh: Timed)
    requires i < |others| && HasDone(before, t, refreshes, others[..i])
    ensures HasDone(before, Run(Apply(t, refresh.op), Ops(others[i])), refreshes + [refresh], others[..i + 1])
  {
    WovenOneMore(before, refreshes, others[..i], refresh, others[i]);
    assert others[..i + 1] == others[..i] + [others[i]];
  }

  /** The refreshes store the controller's session anew under one key after the other. */
  predicate Stores(refreshes: seq<Timed>, uid: string, address: SocketAddr, settings: ConnectionSettings,
                   keys: seq<string>)
  {
    && |refreshes| == |keys|
    && forall i :: 0 <= i < |keys| ==>
      refreshes[i].op == SetOp(SessionInfo(keys[i], uid, address, Controller, settings), refreshes[i].at)
  }

  lemma {:induction false} StoresOneMore(refreshes: seq<Timed>, uid: string, address: SocketAddr,
                                         settings: ConnectionSettings, keys: seq<string>, i: nat, refresh: Timed)
    requires i < |keys| && Stores(refreshes, uid, address, settings, keys[..i])
    requires refresh.op == SetOp(SessionInfo(keys[i], uid, address, Controller, settings), refresh.at)
    ensures Stores(refreshes + [refresh], uid, address, settings, keys[..i + 1])
  {
  }

  lemma {:induction false} LoopLeavesFew(refreshes: seq<Timed>, uid: string, address: SocketAddr,
                                         settings: ConnectionSettings, keys: seq<string>,
                                         others: seq<seq<Timed>>, start: int)
    requires Stores(refreshes, uid, address, settings, keys) && |others| == |keys|
    requires forall i :: 0 <= i < |refreshes| ==> start <= refreshes[i].at
    requires forall i, j :: 0 <= i < j < |refreshes| ==> refreshes[i].at + 2000 <= refreshes[j].at
    ensures Undisturbed(keys, others) && OnTimeRun(Begin(start), Woven(refreshes, others)) ==>
      AlwaysFew(Woven(refreshes, others))
  {
    if Undisturbed(keys, others) && OnTimeRun(Begin(start), Woven(refreshes, others)) {
      WovenSole(refreshes, others, keys, start);
      SoleRefresherBounded(start, Woven(refreshes, others));
    }
  }

  /** The first refresh comes at once, each further one 2000 ms after the last and what its pause took longer; the
      next is due now. */
  ghost predicate Paced(refreshes: seq<Timed>, late: seq<nat>, start: int, now: int) {
    var n := |refreshes|;
    && n <= |late|
    && (n == 0 ==> now == start)
    && (n > 0 ==> refreshes[0].at == start && now == refreshes[n - 1].at + 2000 + late[n - 1])
    && (forall k :: 0 <= k < n - 1 ==> refreshes[k + 1].at == refreshes[k].at + 2000 + late[k])
  }

  lemma {:induction false} PacedOneMore(refreshes: seq<Timed>, late: seq<nat>, start: int, now: int, refresh: Timed)
    requires Paced(refreshes, late, start, now) && |refreshes| < |late| && refresh.at == now
    ensures Paced(refreshes + [refresh], late, start, now + 2000 + late[|refreshes|])
  {
  }

  lemma {:induction false} PacedIsSpaced(refreshes: seq<Timed>, late: seq<nat>, start: int, now: int)
    requires Paced(refreshes, late, start, now)
    ensures start <= now
    ensures forall i :: 0 <= i < |refreshes| ==> start <= refreshes[i].at && refreshes[i].at + 2000 <= now
    ensures forall i, j :: 0 <= i < j < |refreshes| ==> refreshes[i].at + 2000 <= refreshes[j].at
    decreases |refreshes|
  {
    if refreshes != [] {
      var n := |refreshes| - 1;
      PacedIsSpaced(refreshes[..n], late, start, refreshes[n].at);
    }
  }

  /** The keys are generated once each and discarded, and nobody else refreshes. */
  ghost predicate Undisturbed(keys: seq<string>, others: seq<seq<Timed>>) {
    && (forall i, j :: 0 <= i < j < |keys| ==> keys[i] != keys[j])
    && (forall during, timed :: during in others && timed in during ==> LeavesAlone(timed.op, keys))
  }

  predicate LeavesAlone(op: Op, keys: seq<string>) {
    match op
    case SetOp(info, _) => info.component != Controller && info.accessKey !in keys
    case GetOp(key, _) => key !in keys
    case _ => true
  }

  // ----- A single refresher leaves few sessions behind

  predicate Touched(op: Op, key: string) {
    (op.SetOp? && op.info.accessKey == key) || (op.GetOp? && op.key == key)
  }

  /** Refreshes come a period apart, each with a key that no other operation touches. */
  ghost predicate SoleRefresher(ops: seq<Timed>, start: int) {
    && (forall i :: 0 <= i < |ops| && IsRefresh(ops[i].op) ==> start <= ops[i].at)
    && (forall i, j :: 0 <= i < j < |ops| && IsRefresh(ops[i].op) && IsRefresh(ops[j].op) ==>
        ops[i].at + REFRESH_PERIOD <= ops[j].at)
    && (forall i, j :: 0 <= i < |ops| && 0 <= j < |ops| && i != j && IsRefresh(ops[i].op) ==>
        !Touched(ops[j].op, ops[i].op.info.accessKey))
  }

  /** What the refreshes to come can rely on. */
  ghost predicate ReadyFor(c: Clock, ops: seq<Timed>) {
    forall j :: 0 <= j < |ops| ==>
      && (IsRefresh(ops[j].op) ==>
          c.lastRefresh + REFRESH_PERIOD <= ops[j].at && ops[j].op.info.accessKey !in c.table.sessions)
      && (forall key :: key in ControllerKeys(c.table) ==> !Touched(ops[j].op, key))
  }

  lemma {:induction false} SoleIsSpaced(c: Clock, ops: seq<Timed>, start: int)
    requires SoleRefresher(ops, start) && ReadyFor(c, ops)
    ensures RefreshSpacedRun(c, ops)
    decreases |ops|
  {
    if ops != [] {
      var c', rest := Tick(c, ops[0].op, ops[0].at), ops[1..];
      forall j | 0 <= j < |rest|
        ensures IsRefresh(rest[j].op) ==>
          c'.lastRefresh + REFRESH_PERIOD <= rest[j].at && rest[j].op.info.accessKey !in c'.table.sessions
        ensures forall key :: key in ControllerKeys(c'.table) ==> !Touched(rest[j].op, key)
      {
        assert rest[j] == ops[j + 1];
        assert ControllerKeys(c'.table) <=
          ControllerKeys(c.table) + if IsRefresh(ops[0].op) then {ops[0].op.info.accessKey} else {};
      }
      SoleIsSpaced(c', rest, start);
    }
  }

  lemma {:induction false} PrefixSole(ops: seq<Timed>, k: nat, start: int)
    requires SoleRefresher(ops, start) && k <= |ops|
    ensures SoleRefresher(ops[..k], start)
  {
  }

  lemma {:induction false} PrefixOnTime(c: Clock, ops: seq<Timed>, k: nat)
    requires OnTimeRun(c, ops) && k <= |ops|
    ensures OnTimeRun(c, ops[..k])
    decreases k
  {
    if k > 0 {
      assert ops[..k][1..] == ops[1..][..k - 1];
      PrefixOnTime(Tick(c, ops[0].op, ops[0].at), ops[1..], k - 1);
    }
  }

  lemma {:induction false} ClockRuns(c: Clock, ops: seq<Timed>)
    ensures RunClock(c, ops).table == Run(c.table, Ops(ops))
    decreases |ops|
  {
    if ops != [] {
      ClockRuns(Tick(c, ops[0].op, ops[0].at), ops[1..]);
    }
  }

  /** Starting from an empty repository at most 8 controller sessions are stored at every point of the run. */
  ghost predicate AlwaysFew(ops: seq<Timed>) {
    forall k :: 0 <= k <= |ops| ==> |ControllerKeys(Run(EMPTY, Ops(ops[..k])))| <= 8
  }

  lemma {:induction false} SoleRefresherBounded(start: int, ops: seq<Timed>)
    requires SoleRefresher(ops, start) && OnTimeRun(Begin(start), ops)
    ensures AlwaysFew(ops)
  {
    forall k | 0 <= k <= |ops| ensures |ControllerKeys(Run(EMPTY, Ops(ops[..k])))| <= 8 {
      PrefixSole(ops, k, start);
      PrefixOnTime(Begin(start), ops, k);
      SoleIsSpaced(Begin(start), ops[..k], start);
      ControllerSessionsBounded(start, ops[..k]);
      ClockRuns(Begin(start), ops[..k]);
    }
  }

  // ----- The loop is a single refresher

  /** Each refresh followed by what the others do until the next one. */
  function Woven(refreshes: seq<Timed>, others: seq<seq<Timed>>): seq<Timed>
    requires |refreshes| == |others|
    decreases |refreshes|
  {
    if refreshes == [] then []
    else
      var n := |refreshes| - 1;
      Woven(refreshes[..n], others[..n]) + ([refreshes[n]] + others[n])
  }

  function Ops(ops: seq<Timed>): seq<Op> {
    if ops == [] then [] else [ops[0].op] + Ops(ops[1..])
  }

  lemma {:induction false} RunConcat(t: Table, ops: seq<Timed>, more: seq<Timed>)
    ensures Run(t, Ops(ops + more)) == Run(Run(t, Ops(ops)), Ops(more))
    decreases |ops|
  {
    if ops == [] {
      assert ops + more == more;
    } else {
      assert (ops + more)[1..] == ops[1..] + more;
      RunConcat(Apply(t, ops[0].op), ops[1..], more);
    }
  }

  lemma {:induction false} RunOneMore(t: Table, ops: seq<Timed>, last: Timed)
    ensures Run(t, Ops(ops + [last])) == Apply(Run(t, Ops(ops)), last.op)
  {
    RunConcat(t, ops, [last]);
    assert [last][1..] == [];
    assert Ops([last]) == [last.op] && [last.op][1..] == [];
  }

  lemma {:induction false} WovenOneMore(t: Table, refreshes: seq<Timed>, others: seq<seq<Timed>>, refresh: Timed,
                                        during: seq<Timed>)
    requires |refreshes| == |others|
    ensures Run(t, Ops(Woven(refreshes + [refresh], others + [during]))) ==
      Run(Apply(Run(t, Ops(Woven(refreshes, others))), refresh.op), Ops(during))
  {
    var n, so := |refreshes|, Woven(refreshes, others);
    assert (refreshes + [refresh])[..n] == refreshes && (others + [during])[..n] == others;
    RunConcat(t, so, [refresh] + during);
    assert ([refresh] + during)[1..] == during;
  }

  /** An operation of the woven run is a refresh of the loop or leaves its keys alone. */
  ghost predicate LoopsOrLeaves(timed: Timed, refreshes: seq<Timed>, keys: seq<string>) {
    timed in refreshes || (!IsRefresh(timed.op) && LeavesAlone(timed.op, keys))
  }

  ghost predicate AreRefreshes(refreshes: seq<Timed>, keys: seq<string>, start: int) {
    && |refreshes| == |keys|
    && (forall i :: 0 <= i < |keys| ==> IsRefresh(refreshes[i].op) && refreshes[i].op.info.accessKey == keys[i])
    && (forall i :: 0 <= i < |keys| ==> start <= refreshes[i].at)
    && (forall i, j :: 0 <= i < j < |keys| ==> refreshes[i].at + REFRESH_PERIOD <= refreshes[j].at)
  }

  lemma {:induction false} WovenParts(refreshes: seq<Timed>, others: seq<seq<Timed>>, keys: seq<string>)
    requires |refreshes| == |others|
    requires forall during, timed :: during in others && timed in during ==> LeavesAlone(timed.op, keys)
    ensures forall timed :: timed in Woven(refreshes, others) ==> LoopsOrLeaves(timed, refreshes, keys)
    decreases |refreshes|
  {
    if refreshes != [] {
      var n := |refreshes| - 1;
      WovenParts(refreshes[..n], others[..n], keys);
      forall timed | timed in Woven(refreshes, others) ensures LoopsOrLeaves(timed, refreshes, keys) {
        if timed in Woven(refreshes[..n], others[..n]) {
          assert LoopsOrLeaves(timed, refreshes[..n], keys);
        }
      }
    }
  }

  lemma {:induction false} WovenSole(refreshes: seq<Timed>, others: seq<seq<Timed>>, keys: seq<string>, start: int)
    requires |refreshes| == |others| && AreRefreshes(refreshes, keys, start) && Undisturbed(keys, others)
    ensures SoleRefresher(Woven(refreshes, others), start)
    decreases |refreshes|
  {
    if refreshes != [] {
      var n := |refreshes| - 1;
      var so, last, during := Woven(refreshes[..n], others[..n]), refreshes[n], others[n];
      WovenSole(refreshes[..n], others[..n], keys[..n], start);
      WovenParts(refreshes[..n], others[..n], keys);
      OneRoundMore(so, refreshes[..n], last, during, keys, start);
    }
  }

  lemma {:induction false} OneRoundMore(so: seq<Timed>, refreshes: seq<Timed>, last: Timed, during: seq<Timed>,
                                        keys: seq<string>, start: int)
    requires SoleRefresher(so, start) && AreRefreshes(refreshes + [last], keys, start)
    requires forall i, j :: 0 <= i < j < |keys| ==> keys[i] != keys[j]
    requires forall timed :: timed in so ==> LoopsOrLeaves(timed, refreshes, keys)
    requires forall timed :: timed in during ==> LeavesAlone(timed.op, keys)
    ensures SoleRefresher(so + ([last] + during), start)
  {
    var all, n := so + ([last] + during), |so|;
    assert (refreshes + [last])[|refreshes|] == last;
    forall i | 0 <= i < n && IsRefresh(all[i].op)
      ensures start <= all[i].at && all[i].at + REFRESH_PERIOD <= last.at
      ensures all[i].op.info.accessKey in keys && all[i].op.info.accessKey != last.op.info.accessKey
    {
      assert LoopsOrLeaves(so[i], refreshes, keys);
      var k :| 0 <= k < |refreshes| && refreshes[k] == all[i];
      assert (refreshes + [last])[k] == all[i];
    }
    forall j | 0 <= j < n ensures !Touched(all[j].op, last.op.info.accessKey) {
      assert LoopsOrLeaves(so[j], refreshes, keys) && last.op.info.accessKey in keys;
      if so[j] in refreshes {
        var k :| 0 <= k < |refreshes| && refreshes[k] == all[j];
        assert (refreshes + [last])[k] == all[j];
      }
    }
    forall j | n < j < |all| ensures LeavesAlone(all[j].op, keys) {
      assert all[j] == during[j - n - 1];
    }
    forall i, j | 0 <= i < |all| && 0 <= j < |all| && i != j && IsRefresh(all[i].op)
      ensures !Touched(all[j].op, all[i].op.info.accessKey)
    {
      if i < n && j < n {
        assert all[i] == so[i] && all[j] == so[j];
      }
    }
    forall i, j | 0 <= i < j < |all| && IsRefresh(all[i].op) && IsRefresh(all[j].op)
      ensures all[i].at + REFRESH_PERIOD <= all[j].at
    {
      if j < n {
        assert all[i] == so[i] && all[j] == so[j];
      }
    }
  }
}
