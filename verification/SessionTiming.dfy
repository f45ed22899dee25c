/** Time in the session table: how old a visible session can be, how many sessions a refreshing controller
    leaves behind, and how long a renewal keeps a session from every sweep. */
module SessionTiming {
  import opened Models
  import opened SessionTable

  const SWEEP_PERIOD: int := 5000
  const REFRESH_PERIOD: nat := 2000

  // ----- Retention: sweeps at most 5000 ms apart

  /** The table at a time, with the last sweep, the last refresh of the controller's own session, and when each
      key was last set or renewed. */
  datatype Clock = Clock(table: Table, now: int, lastSweep: int, lastRefresh: int, touched: map<string, int>)

  function Touches(t: Table, op: Op): set<string> {
    match op
    case SetOp(info, _) => {info.accessKey}
    case GetOp(key, _) => if key in t.sessions then {key} else {}
    case _ => {}
  }

  predicate IsRefresh(op: Op) {
    op.SetOp? && op.info.component == Controller
  }

  function Tick(c: Clock, op: Op, at: int): Clock {
    Clock(
      Apply(c.table, op),
      at,
      if op.SweepOp? then at else c.lastSweep,
      if IsRefresh(op) then at else c.lastRefresh,
      map k | k in c.touched.Keys + Touches(c.table, op) :: if k in Touches(c.table, op) then at else c.touched[k])
  }

  /** The clock is monotone and no sweep is late. */
  ghost predicate OnTime(c: Clock, op: Op, at: int) {
    && c.now <= at <= c.lastSweep + SWEEP_PERIOD
    && match op
       case SetOp(_, now) => now == at
       case GetOp(_, now) => now == at
       case SweepOp(now) => now == at
       case RemoveOp(_) => true
  }

  ghost predicate Dated(c: Clock) {
    && c.lastSweep <= c.now
    && forall k :: k in c.table.sessions ==>
      && k in c.touched
      && c.touched[k] <= c.now
      && c.table.sessions[k].ttl == SESSIONS_EXPIRATION_TIME
      && c.table.sessions[k].expiresAt == c.touched[k] + SESSIONS_EXPIRATION_TIME
      && c.lastSweep <= c.table.sessions[k].expiresAt
  }

  datatype Timed = Timed(op: Op, at: int)

  function RunClock(c: Clock, ops: seq<Timed>): Clock
    decreases |ops|
  {
    if ops == [] then c else RunClock(Tick(c, ops[0].op, ops[0].at), ops[1..])
  }

  ghost predicate OnTimeRun(c: Clock, ops: seq<Timed>)
    decreases |ops|
  {
    ops != [] ==> OnTime(c, ops[0].op, ops[0].at) && OnTimeRun(Tick(c, ops[0].op, ops[0].at), ops[1..])
  }

  function Begin(at: int): Clock {
    Clock(EMPTY, at, at, at - REFRESH_PERIOD, map[])
  }

  lemma {:induction false} TickDated(c: Clock, op: Op, at: int)
    requires Dated(c) && OnTime(c, op, at)
    ensures Dated(Tick(c, op, at))
  {
  }

  lemma {:induction false} RunDated(c: Clock, ops: seq<Timed>)
    requires Dated(c) && OnTimeRun(c, ops)
    ensures Dated(RunClock(c, ops))
    decreases |ops|
  {
    if ops != [] {
      TickDated(c, ops[0].op, ops[0].at);
      RunDated(Tick(c, ops[0].op, ops[0].at), ops[1..]);
    }
  }

  /** A session visible at time u was set or renewed at u - 15000 or later. */
  lemma {:induction false} SessionRetention(start: int, ops: seq<Timed>, u: int, key: string)
    requires OnTimeRun(Begin(start), ops)
    requires var c := RunClock(Begin(start), ops);
      c.now <= u <= c.lastSweep + SWEEP_PERIOD && key in c.table.sessions
    ensures var c := RunClock(Begin(start), ops);
      key in c.touched && u - 15000 <= c.touched[key] <= u
  {
    RunDated(Begin(start), ops);
  }

  /** And no sooner: with a sweep every 5000 ms a session set at 0 and left alone is still there at 15000. */
  lemma {:induction false} SessionRetentionTight(info: SessionInfo)
    ensures var ops := [Timed(SetOp(info, 0), 0), Timed(SweepOp(5000), 5000), Timed(SweepOp(10000), 10000)];
      var c := RunClock(Begin(0), ops);
      && OnTimeRun(Begin(0), ops)
      && c.lastSweep + 5000 == 15000
      && info.accessKey in c.table.sessions
      && info.accessKey in c.touched && c.touched[info.accessKey] == 0
      && c.now <= 15000 <= c.lastSweep + SWEEP_PERIOD
  {
    var ops := [Timed(SetOp(info, 0), 0), Timed(SweepOp(5000), 5000), Timed(SweepOp(10000), 10000)];
    assert ops[1..] == [Timed(SweepOp(5000), 5000), Timed(SweepOp(10000), 10000)];
    assert ops[1..][1..] == [Timed(SweepOp(10000), 10000)] && ops[1..][1..][1..] == [];
    var c1 := Tick(Begin(0), SetOp(info, 0), 0);
    var c2 := Tick(c1, SweepOp(5000), 5000);
    var c3 := Tick(c2, SweepOp(10000), 10000);
    assert RunClock(c1, ops[1..]) == RunClock(c2, ops[1..][1..]) == RunClock(c3, []) == c3;
    assert OnTimeRun(c2, ops[1..][1..]) && OnTimeRun(c1, ops[1..]);
  }

  // ----- The controller's own sessions

  /** One controller refreshes, at least 2000 ms apart and with a new key each time; it discards the keys, so
      nobody renews them. */
  ghost predicate RefreshSpaced(c: Clock, op: Op, at: int) {
    && (IsRefresh(op) ==> c.lastRefresh + REFRESH_PERIOD <= at && op.info.accessKey !in c.table.sessions)
    && (op.SetOp? ==> op.info.accessKey !in ControllerKeys(c.table))
    && (op.GetOp? ==> op.key !in ControllerKeys(c.table))
  }

  ghost predicate RefreshSpacedRun(c: Clock, ops: seq<Timed>)
    decreases |ops|
  {
    ops != [] ==> RefreshSpaced(c, ops[0].op, ops[0].at) && RefreshSpacedRun(Tick(c, ops[0].op, ops[0].at), ops[1..])
  }

  function ControllerKeys(t: Table): set<string> {
    set k | k in t.sessions && t.sessions[k].value.component == Controller
  }

  ghost predicate Spaced(c: Clock) {
    && (forall k :: k in ControllerKeys(c.table) ==> k in c.touched && c.touched[k] <= c.lastRefresh)
    && (forall j, k :: j in ControllerKeys(c.table) && k in ControllerKeys(c.table) && j != k ==>
        j in c.touched && k in c.touched &&
        (c.touched[j] + REFRESH_PERIOD <= c.touched[k] || c.touched[k] + REFRESH_PERIOD <= c.touched[j]))
  }

  lemma {:induction false} TickSpaced(c: Clock, op: Op, at: int)
    requires Spaced(c) && RefreshSpaced(c, op, at)
    ensures Spaced(Tick(c, op, at))
  {
    var c' := Tick(c, op, at);
    if IsRefresh(op) {
      assert ControllerKeys(c'.table) == ControllerKeys(c.table) + {op.info.accessKey};
    } else {
      assert ControllerKeys(c'.table) <= ControllerKeys(c.table);
      assert ControllerKeys(c'.table) !! Touches(c.table, op);
    }
  }

  lemma {:induction false} RunSpaced(c: Clock, ops: seq<Timed>)
    requires Spaced(c) && RefreshSpacedRun(c, ops)
    ensures Spaced(RunClock(c, ops))
    decreases |ops|
  {
    if ops != [] {
      TickSpaced(c, ops[0].op, ops[0].at);
      RunSpaced(Tick(c, ops[0].op, ops[0].at), ops[1..]);
    }
  }

  /** Points a period apart in a window of n periods and less than one more number at most n + 1. */
  lemma {:induction false} SpacedCount(keys: set<string>, times: map<string, int>, lo: int, n: nat)
    requires forall k :: k in keys ==> k in times && lo <= times[k] < lo + (n + 1) * REFRESH_PERIOD
    requires forall j, k :: j in keys && k in keys && j != k ==>
      times[j] + REFRESH_PERIOD <= times[k] || times[k] + REFRESH_PERIOD <= times[j]
    ensures |keys| <= n + 1
    decreases n
  {
    var last := set k | k in keys && lo + n * REFRESH_PERIOD <= times[k];
    AtMostOne(last);
    assert |keys| == |keys - last| + |last| by {
      assert keys == (keys - last) + last;
    }
    if n == 0 {
      assert keys - last == {};
    } else {
      SpacedCount(keys - last, times, lo, n - 1);
    }
  }

  lemma {:induction false} AtMostOne(s: set<string>)
    requires forall j, k :: j in s && k in s ==> j == k
    ensures |s| <= 1
  {
    if s != {} {
      var k :| k in s;
      assert s == {k};
    }
  }

  /** At most 8 sessions of the refreshing controller are stored at any time. */
  lemma {:induction false} ControllerSessionsBounded(start: int, ops: seq<Timed>)
    requires OnTimeRun(Begin(start), ops) && RefreshSpacedRun(Begin(start), ops)
    ensures |ControllerKeys(RunClock(Begin(start), ops).table)| <= 8
  {
    var c := RunClock(Begin(start), ops);
    NowOnTime(Begin(start), ops);
    RunDated(Begin(start), ops);
    RunSpaced(Begin(start), ops);
    SpacedCount(ControllerKeys(c.table), c.touched, c.now - 15000, 7);
  }

  lemma {:induction false} NowOnTime(c: Clock, ops: seq<Timed>)
    requires OnTimeRun(c, ops) && c.now <= c.lastSweep + SWEEP_PERIOD
    ensures var c' := RunClock(c, ops);
      c'.now <= c'.lastSweep + SWEEP_PERIOD
    decreases |ops|
  {
    if ops != [] {
      NowOnTime(Tick(c, ops[0].op, ops[0].at), ops[1..]);
    }
  }

  // ----- What a renewal buys

  /** What anybody may do between two renewals of `key` other than log it out. */
  predicate Harmless(op: Op, key: string, lo: int, hi: int) {
    match op
    case SetOp(info, _) => info.accessKey != key
    case GetOp(_, now) => lo <= now
    case RemoveOp(k) => k != key
    case SweepOp(now) => lo <= now <= hi
  }

  predicate Alive(t: Table, key: string, renewed: int) {
    && key in t.sessions
    && t.sessions[key].ttl == SESSIONS_EXPIRATION_TIME
    && renewed + SESSIONS_EXPIRATION_TIME <= t.sessions[key].expiresAt
  }

  /** A session renewed at `lo` is still there up to `lo` + 10000 unless it is logged out: in particular a
      lookup that follows a passed check within that time succeeds. */
  lemma {:induction false} WindowKeepsSession(t: Table, key: string, lo: int, hi: int, ops: seq<Op>)
    requires Alive(t, key, lo) && hi <= lo + SESSIONS_EXPIRATION_TIME
    requires forall op :: op in ops ==> Harmless(op, key, lo, hi)
    ensures Alive(Run(t, ops), key, lo)
    decreases |ops|
  {
    if ops != [] {
      assert ops[0] in ops;
      WindowKeepsSession(Apply(t, ops[0]), key, lo, hi, ops[1..]);
    }
  }
}
