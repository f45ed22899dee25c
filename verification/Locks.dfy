/** Fair read/write locks shared by any number of tasks: when no reachable state is stuck. */
module Locks {
  datatype Mode = Read | Write

  type LockId = nat

  /** What a task does next: ask for a guard, touch the guarded data, drop a guard. */
  datatype Action = Acquire(lock: LockId, mode: Mode) | Access | Drop(lock: LockId)

  type Script = seq<Action>

  /** A task with the rest of its script, whether it is queued for its next guard, and the guards it holds. */
  datatype Task = Task(script: Script, queued: bool, held: map<LockId, Mode>)

  datatype Request = Request(task: nat, mode: Mode)

  /** One first-in-first-out queue per lock. */
  datatype State = State(tasks: seq<Task>, queues: seq<seq<Request>>)

  // ----- Steps

  ghost predicate Compatible(s: State, lock: LockId, mode: Mode) {
    forall j :: 0 <= j < |s.tasks| && lock in s.tasks[j].held ==> mode == Read && s.tasks[j].held[lock] == Read
  }

  ghost predicate Enabled(s: State, i: nat) {
    && i < |s.tasks|
    && s.tasks[i].script != []
    && match s.tasks[i].script[0]
       case Acquire(lock, mode) =>
         && lock < |s.queues|
         && (s.tasks[i].queued ==> s.queues[lock] != [] && s.queues[lock][0].task == i && Compatible(s, lock, mode))
       case _ => true
  }

  function Next(s: State, i: nat): State
    requires Enabled(s, i)
  {
    var task := s.tasks[i];
    match task.script[0]
    case Acquire(lock, mode) =>
      if task.queued then
        State(s.tasks[i := Task(task.script[1..], false, task.held[lock := mode])],
              s.queues[lock := s.queues[lock][1..]])
      else
        State(s.tasks[i := task.(queued := true)],
              s.queues[lock := s.queues[lock] + [Request(i, mode)]])
    case Access => s.(tasks := s.tasks[i := task.(script := task.script[1..])])
    case Drop(lock) => s.(tasks := s.tasks[i := Task(task.script[1..], task.queued, task.held - {lock})])
  }

  ghost predicate Possible(s: State, schedule: seq<nat>)
    decreases |schedule|
  {
    schedule != [] ==> Enabled(s, schedule[0]) && Possible(Next(s, schedule[0]), schedule[1..])
  }

  function After(s: State, schedule: seq<nat>): State
    requires Possible(s, schedule)
    decreases |schedule|
  {
    if schedule == [] then s else After(Next(s, schedule[0]), schedule[1..])
  }

  /** Some task has not finished and none can move. */
  ghost predicate Stuck(s: State) {
    && (exists i :: 0 <= i < |s.tasks| && s.tasks[i].script != [])
    && (forall i :: 0 <= i < |s.tasks| ==> !Enabled(s, i))
  }

  function Started(scripts: seq<Script>, locks: nat): State {
    State(seq(|scripts|, i requires 0 <= i < |scripts| => Task(scripts[i], false, map[])), seq(locks, _ => []))
  }

  // ----- What makes the locks fair read/write locks

  /** A task that waits for a guard gets it exactly when its request is the first and, for writing, nobody holds the
      lock, for reading, nobody holds it for writing. */
  lemma {:induction false} GrantedIff(s: State, i: nat, lock: LockId, mode: Mode)
    requires i < |s.tasks| && lock < |s.queues|
    requires s.tasks[i].queued && s.tasks[i].script != [] && s.tasks[i].script[0] == Acquire(lock, mode)
    ensures Enabled(s, i) <==>
      && s.queues[lock] != [] && s.queues[lock][0].task == i
      && (forall j :: 0 <= j < |s.tasks| && lock in s.tasks[j].held ==> mode == Read && s.tasks[j].held[lock] != Write)
    ensures Enabled(s, i) ==>
      lock in Next(s, i).tasks[i].held && Next(s, i).tasks[i].held[lock] == mode && !Next(s, i).tasks[i].queued
  {
  }

  /** Asking never blocks, and neither does touching the data or dropping a guard, which frees the lock. */
  lemma {:induction false} OthersProceed(s: State, i: nat)
    requires i < |s.tasks| && s.tasks[i].script != [] && !s.tasks[i].queued
    requires s.tasks[i].script[0].Acquire? ==> s.tasks[i].script[0].lock < |s.queues|
    ensures Enabled(s, i)
    ensures match s.tasks[i].script[0]
      case Acquire(lock, mode) =>
        Next(s, i).tasks[i].queued && Next(s, i).tasks[i].held == s.tasks[i].held
      case Access => Next(s, i).tasks[i].held == s.tasks[i].held
      case Drop(lock) => Next(s, i).tasks[i].held == s.tasks[i].held - {lock}
  {
  }

  /** First come, first served: whatever happens, a queue is what it was, with later requests behind, less those that
      were granted from its front; so nobody overtakes, a reader not a waiting writer either. */
  lemma {:induction false} FirstComeFirstServed(s: State, schedule: seq<nat>, lock: LockId)
    returns (later: seq<Request>, granted: nat)
    requires Possible(s, schedule) && lock < |s.queues|
    ensures |After(s, schedule).queues| == |s.queues|
    ensures granted <= |s.queues[lock] + later|
    ensures After(s, schedule).queues[lock] == (s.queues[lock] + later)[granted..]
    decreases |schedule|
  {
    if schedule == [] {
      later, granted := [], 0;
      assert (s.queues[lock] + [])[0..] == s.queues[lock];
    } else {
      var asked, taken := OneStepServes(s, schedule[0], lock);
      var more, rest := FirstComeFirstServed(Next(s, schedule[0]), schedule[1..], lock);
      later, granted := asked + more, taken + rest;
      var q := s.queues[lock] + asked;
      assert s.queues[lock] + later == q + more;
      assert (q + more)[taken..] == q[taken..] + more;
      assert (q + more)[taken..][rest..] == (q + more)[taken + rest..];
    }
  }

  lemma {:induction false} OneStepServes(s: State, i: nat, lock: LockId) returns (asked: seq<Request>, taken: nat)
    requires Enabled(s, i) && lock < |s.queues|
    ensures |Next(s, i).queues| == |s.queues| && taken <= |s.queues[lock] + asked|
    ensures Next(s, i).queues[lock] == (s.queues[lock] + asked)[taken..]
  {
    asked, taken := [], 0;
    assert (s.queues[lock] + [])[0..] == s.queues[lock];
    if s.tasks[i].script[0].Acquire? && s.tasks[i].script[0].lock == lock {
      if s.tasks[i].queued {
        taken := 1;
        assert (s.queues[lock] + [])[1..] == s.queues[lock][1..];
      } else {
        asked := [Request(i, s.tasks[i].script[0].mode)];
        assert (s.queues[lock] + asked)[0..] == s.queues[lock] + asked;
      }
    }
  }

  // ----- The lock order

  /** The script asks for every lock at a higher rank than those it then holds, and drops all it takes. */
  ghost predicate Ordered(script: Script, held: set<LockId>, rank: LockId -> nat, locks: nat)
    decreases |script|
  {
    if script == [] then held == {}
    else
      match script[0]
      case Acquire(lock, _) =>
        && lock < locks
        && (forall h :: h in held ==> rank(h) < rank(lock))
        && Ordered(script[1..], held + {lock}, rank, locks)
      case Access => Ordered(script[1..], held, rank, locks)
      case Drop(lock) => lock in held && Ordered(script[1..], held - {lock}, rank, locks)
  }

  lemma {:induction false} OrderedConcat(a: Script, b: Script, held: set<LockId>, rank: LockId -> nat, locks: nat)
    requires Ordered(a, held, rank, locks) && Ordered(b, {}, rank, locks)
    ensures Ordered(a + b, held, rank, locks)
    decreases |a|
  {
    if a == [] {
      assert a + b == b;
    } else {
      assert (a + b)[0] == a[0] && (a + b)[1..] == a[1..] + b;
      match a[0]
      case Acquire(lock, _) => OrderedConcat(a[1..], b, held + {lock}, rank, locks);
      case Access => OrderedConcat(a[1..], b, held, rank, locks);
      case Drop(lock) => OrderedConcat(a[1..], b, held - {lock}, rank, locks);
    }
  }

  // ----- The invariant

  ghost predicate TasksOrdered(s: State, rank: LockId -> nat) {
    forall i :: 0 <= i < |s.tasks| ==> Ordered(s.tasks[i].script, s.tasks[i].held.Keys, rank, |s.queues|)
  }

  ghost predicate IsWaiting(s: State, r: Request, lock: LockId) {
    && r.task < |s.tasks|
    && s.tasks[r.task].queued
    && s.tasks[r.task].script != []
    && s.tasks[r.task].script[0] == Acquire(lock, r.mode)
  }

  ghost predicate QueueRight(s: State, lock: LockId)
    requires lock < |s.queues|
  {
    var q := s.queues[lock];
    && (forall k :: 0 <= k < |q| ==> IsWaiting(s, q[k], lock))
    && (forall j, k :: 0 <= j < k < |q| ==> q[j].task != q[k].task)
  }

  ghost predicate WaiterRight(s: State, i: nat)
    requires i < |s.tasks|
  {
    s.tasks[i].queued ==>
      && s.tasks[i].script != []
      && s.tasks[i].script[0].Acquire?
      && s.tasks[i].script[0].lock < |s.queues|
      && Request(i, s.tasks[i].script[0].mode) in s.queues[s.tasks[i].script[0].lock]
  }

  ghost predicate QueuesRight(s: State) {
    && (forall lock :: 0 <= lock < |s.queues| ==> QueueRight(s, lock))
    && (forall i :: 0 <= i < |s.tasks| ==> WaiterRight(s, i))
  }

  /** A write guard is held alone. */
  ghost predicate Exclusive(s: State) {
    forall i, j, lock ::
      (0 <= i < |s.tasks| && 0 <= j < |s.tasks| && i != j && lock in s.tasks[i].held && lock in s.tasks[j].held) ==>
        s.tasks[i].held[lock] == Read
  }

  ghost predicate Inv(s: State, rank: LockId -> nat) {
    TasksOrdered(s, rank) && QueuesRight(s) && Exclusive(s)
  }

  lemma {:induction false} NextQueuesRight(s: State, i: nat)
    requires QueuesRight(s) && Enabled(s, i)
    ensures QueuesRight(Next(s, i))
  {
    var s' := Next(s, i);
    forall lock | 0 <= lock < |s'.queues| ensures QueueRight(s', lock) {
      assert QueueRight(s, lock);
      QueueRightNext(s, i, lock);
    }
    forall j | 0 <= j < |s'.tasks| ensures WaiterRight(s', j) {
      assert WaiterRight(s, j);
      WaiterRightNext(s, i, j);
    }
  }

  lemma {:induction false} QueueRightNext(s: State, i: nat, lock: LockId)
    requires QueuesRight(s) && Enabled(s, i) && lock < |s.queues|
    ensures QueueRight(Next(s, i), lock)
  {
    var s' := Next(s, i);
    assert QueueRight(s, lock) && WaiterRight(s, i);
    var q, q' := s.queues[lock], s'.queues[lock];
    assert forall k :: 0 <= k < |q| && !s.tasks[i].queued ==> q[k].task != i;
    match s.tasks[i].script[0] {
      case Acquire(l, mode) =>
        if s.tasks[i].queued {
          assert l == lock ==> q == [q[0]] + q';
          forall k | 0 <= k < |q'| ensures q'[k].task != i {
            if l == lock {
              assert q'[k] == q[k + 1];
            } else {
              assert IsWaiting(s, q[k], lock);
            }
          }
        }
      case _ =>
    }
    forall k | 0 <= k < |q'| ensures IsWaiting(s', q'[k], lock) {
    }
  }

  lemma {:induction false} WaiterRightNext(s: State, i: nat, j: nat)
    requires QueuesRight(s) && Enabled(s, i) && j < |s.tasks|
    ensures WaiterRight(Next(s, i), j)
  {
    var s' := Next(s, i);
    assert WaiterRight(s, j) && WaiterRight(s, i);
    if s'.tasks[j].queued && j != i {
      var lock := s.tasks[j].script[0].lock;
      var r := Request(j, s.tasks[j].script[0].mode);
      assert r in s.queues[lock];
      if s.tasks[i].script[0].Acquire? && s.tasks[i].script[0].lock == lock && s.tasks[i].queued {
        assert s.queues[lock] == [s.queues[lock][0]] + s'.queues[lock];
      }
      assert r in s'.queues[lock];
    }
  }

  lemma {:induction false} NextInv(s: State, i: nat, rank: LockId -> nat)
    requires Inv(s, rank) && Enabled(s, i)
    ensures Inv(Next(s, i), rank)
  {
    NextQueuesRight(s, i);
    var s', task := Next(s, i), s.tasks[i];
    assert Ordered(task.script, task.held.Keys, rank, |s.queues|);
    match task.script[0] {
      case Acquire(lock, mode) =>
        assert task.held[lock := mode].Keys == task.held.Keys + {lock};
      case Access =>
      case Drop(lock) =>
        assert (task.held - {lock}).Keys == task.held.Keys - {lock};
    }
    assert TasksOrdered(s', rank);
  }

  lemma {:induction false} AfterInv(s: State, schedule: seq<nat>, rank: LockId -> nat)
    requires Inv(s, rank) && Possible(s, schedule)
    ensures Inv(After(s, schedule), rank)
    decreases |schedule|
  {
    if schedule != [] {
      NextInv(s, schedule[0], rank);
      AfterInv(Next(s, schedule[0]), schedule[1..], rank);
    }
  }

  // ----- Progress

  /** If nothing moves, whoever holds a lock that others queue for is itself queued at a higher rank. */
  lemma {:induction false} HolderWaitsHigher(s: State, lock: LockId, rank: LockId -> nat) returns (higher: LockId)
    requires Inv(s, rank) && Stuck(s)
    requires lock < |s.queues| && s.queues[lock] != []
    ensures higher < |s.queues| && s.queues[higher] != [] && rank(lock) < rank(higher)
  {
    var head := s.queues[lock][0];
    assert QueueRight(s, lock);
    assert IsWaiting(s, head, lock);
    assert !Enabled(s, head.task);
    var j :| 0 <= j < |s.tasks| && lock in s.tasks[j].held;
    assert !Enabled(s, j);
    assert Ordered(s.tasks[j].script, s.tasks[j].held.Keys, rank, |s.queues|);
    assert s.tasks[j].script[0].Acquire?;
    higher := s.tasks[j].script[0].lock;
    assert WaiterRight(s, j);
  }

  lemma {:induction false} NoQueueWhenStuck(s: State, lock: LockId, rank: LockId -> nat, top: nat)
    requires Inv(s, rank) && Stuck(s)
    requires forall l :: 0 <= l < |s.queues| ==> rank(l) < top
    requires lock < |s.queues| && s.queues[lock] != []
    ensures false
    decreases top - rank(lock)
  {
    var higher := HolderWaitsHigher(s, lock, rank);
    NoQueueWhenStuck(s, higher, rank, top);
  }

  lemma {:induction false} NeverStuck(s: State, rank: LockId -> nat, top: nat)
    requires Inv(s, rank)
    requires forall l :: 0 <= l < |s.queues| ==> rank(l) < top
    ensures !Stuck(s)
  {
    if Stuck(s) {
      var i :| 0 <= i < |s.tasks| && s.tasks[i].script != [];
      assert !Enabled(s, i);
      assert Ordered(s.tasks[i].script, s.tasks[i].held.Keys, rank, |s.queues|);
      assert WaiterRight(s, i);
      NoQueueWhenStuck(s, s.tasks[i].script[0].lock, rank, top);
    }
  }

  /** Tasks that all follow one lock order never get stuck, however they are scheduled, and never share a lock
      with its writer. */
  lemma {:induction false} OrderedTasksNeverStuck(scripts: seq<Script>, locks: nat, schedule: seq<nat>,
                                                  rank: LockId -> nat, top: nat)
    requires forall i :: 0 <= i < |scripts| ==> Ordered(scripts[i], {}, rank, locks)
    requires forall l :: 0 <= l < locks ==> rank(l) < top
    requires Possible(Started(scripts, locks), schedule)
    ensures !Stuck(After(Started(scripts, locks), schedule))
    ensures Exclusive(After(Started(scripts, locks), schedule))
  {
    var s := Started(scripts, locks);
    forall i | 0 <= i < |scripts| ensures Ordered(s.tasks[i].script, s.tasks[i].held.Keys, rank, locks) {
      assert s.tasks[i].held.Keys == {};
    }
    AfterInv(s, schedule, rank);
    AfterKeepsLocks(s, schedule);
    NeverStuck(After(s, schedule), rank, top);
  }

  lemma {:induction false} AfterKeepsLocks(s: State, schedule: seq<nat>)
    requires Possible(s, schedule)
    ensures |After(s, schedule).queues| == |s.queues|
    decreases |schedule|
  {
    if schedule != [] {
      AfterKeepsLocks(Next(s, schedule[0]), schedule[1..]);
    }
  }

  // ----- Completion: every run is finite, so a run that goes on while it can finishes every task

  function Work(tasks: seq<Task>): nat {
    if tasks == [] then 0
    else
      var last := tasks[|tasks| - 1];
      Work(tasks[..|tasks| - 1]) + 2 * |last.script| + if last.queued || last.script == [] then 0 else 1
  }

  lemma {:induction false} WorkUpdate(tasks: seq<Task>, i: nat, task: Task)
    requires i < |tasks|
    ensures Work(tasks[i := task]) - Work([task]) == Work(tasks) - Work([tasks[i]])
    decreases |tasks|
  {
    var n := |tasks| - 1;
    assert [task][..0] == [] && [tasks[i]][..0] == [];
    if i == n {
      assert tasks[i := task][..n] == tasks[..n];
    } else {
      assert tasks[i := task][..n] == tasks[..n][i := task];
      WorkUpdate(tasks[..n], i, task);
    }
  }

  lemma {:induction false} WorkBoundsSchedule(s: State, schedule: seq<nat>)
    requires Possible(s, schedule)
    ensures |schedule| + Work(After(s, schedule).tasks) <= Work(s.tasks)
    decreases |schedule|
  {
    if schedule != [] {
      var i := schedule[0];
      var s' := Next(s, i);
      WorkUpdate(s.tasks, i, s'.tasks[i]);
      assert [s.tasks[i]][..0] == [] && [s'.tasks[i]][..0] == [];
      assert Work([s'.tasks[i]]) < Work([s.tasks[i]]);
      WorkBoundsSchedule(s', schedule[1..]);
    }
  }

  /** Tasks in one lock order that run on while any of them can finish every script, in no more steps than there
      was work. */
  lemma {:induction false} OrderedTasksFinish(scripts: seq<Script>, locks: nat, schedule: seq<nat>,
                                              rank: LockId -> nat, top: nat)
    requires forall i :: 0 <= i < |scripts| ==> Ordered(scripts[i], {}, rank, locks)
    requires forall l :: 0 <= l < locks ==> rank(l) < top
    requires Possible(Started(scripts, locks), schedule)
    requires var s := After(Started(scripts, locks), schedule);
      forall i :: 0 <= i < |s.tasks| ==> !Enabled(s, i)
    ensures var s := After(Started(scripts, locks), schedule);
      forall i :: 0 <= i < |s.tasks| ==> s.tasks[i].script == []
    ensures |schedule| <= Work(Started(scripts, locks).tasks)
  {
    OrderedTasksNeverStuck(scripts, locks, schedule, rank, top);
    WorkBoundsSchedule(Started(scripts, locks), schedule);
  }

  // ----- Reachability

  ghost predicate Reachable(s: State, s': State) {
    exists schedule :: Possible(s, schedule) && After(s, schedule) == s'
  }

  lemma {:induction false} ReachSelf(s: State)
    ensures Reachable(s, s)
  {
    assert Possible(s, []) && After(s, []) == s;
  }

  lemma {:induction false} ReachFirst(s: State, i: nat, s': State)
    requires Enabled(s, i) && Reachable(Next(s, i), s')
    ensures Reachable(s, s')
  {
    var schedule :| Possible(Next(s, i), schedule) && After(Next(s, i), schedule) == s';
    assert ([i] + schedule)[1..] == schedule;
    assert Possible(s, [i] + schedule) && After(s, [i] + schedule) == s';
  }

  /** A free lock with an empty queue can be taken, and the data under it touched. */
  lemma {:induction false} ReachTaken(s: State, i: nat, lock: LockId, mode: Mode, rest: Script, s': State)
    requires i < |s.tasks| && lock < |s.queues| && s.queues[lock] == [] && Compatible(s, lock, mode)
    requires !s.tasks[i].queued && s.tasks[i].script == [Acquire(lock, mode), Access] + rest
    requires Reachable(s.(tasks := s.tasks[i := Task(rest, false, s.tasks[i].held[lock := mode])]), s')
    ensures Reachable(s, s')
  {
    var asked := Next(s, i);
    assert asked.queues[lock] == [Request(i, mode)];
    assert Compatible(asked, lock, mode) by {
      forall j | 0 <= j < |asked.tasks| && lock in asked.tasks[j].held
        ensures mode == Read && asked.tasks[j].held[lock] == Read
      {
        assert lock in s.tasks[j].held;
      }
    }
    var granted := Next(asked, i);
    assert asked.queues[lock][1..] == [];
    assert granted.queues == s.queues;
    assert granted.tasks[i].script == [Access] + rest;
    assert Next(granted, i) == s.(tasks := s.tasks[i := Task(rest, false, s.tasks[i].held[lock := mode])]);
    ReachFirst(granted, i, s');
    ReachFirst(asked, i, s');
    ReachFirst(s, i, s');
  }

  /** Two tasks, each asking for a lock the other holds in a conflicting mode, end up stuck. */
  lemma {:induction false} EmbraceGetsStuck(s: State, l0: LockId, mode0: Mode, l1: LockId, mode1: Mode)
    returns (stuck: State)
    requires |s.tasks| == 2 && !s.tasks[0].queued && !s.tasks[1].queued
    requires l0 != l1 && l0 < |s.queues| && l1 < |s.queues| && s.queues[l0] == [] && s.queues[l1] == []
    requires s.tasks[0].script != [] && s.tasks[0].script[0] == Acquire(l0, mode0)
    requires s.tasks[1].script != [] && s.tasks[1].script[0] == Acquire(l1, mode1)
    requires l0 in s.tasks[1].held && (mode0 == Write || s.tasks[1].held[l0] == Write)
    requires l1 in s.tasks[0].held && (mode1 == Write || s.tasks[0].held[l1] == Write)
    ensures Reachable(s, stuck) && Stuck(stuck)
  {
    var one := Next(s, 0);
    stuck := Next(one, 1);
    assert !Compatible(stuck, l0, mode0) by {
      assert l0 in stuck.tasks[1].held;
    }
    assert !Compatible(stuck, l1, mode1) by {
      assert l1 in stuck.tasks[0].held;
    }
    assert stuck.tasks[0].script[0] == Acquire(l0, mode0) && stuck.tasks[1].script[0] == Acquire(l1, mode1);
    assert !Enabled(stuck, 0) && !Enabled(stuck, 1);
    ReachSelf(stuck);
    ReachFirst(one, 1, stuck);
    ReachFirst(s, 0, stuck);
  }
}
