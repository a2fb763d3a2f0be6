/**
 The writer-priority read-write lock of kernel/kern/rwlock.c on the wait queues of
 kernel/kern/wait_queue.c.  Bodies under the internal lock are single steps.

 `Lock` is the lock with its history: who holds it, and the writers in the order
 they asked (`came`) and in the order they were admitted (`admitted`).  The class
 is the code; each method is proved to make the step of the same name.
 */
module RwLock {

  datatype Lock = Lock(
    count: int, readQueue: seq<nat>, writeQueue: seq<nat>,
    readers: multiset<nat>, writer: set<nat>, came: seq<nat>, admitted: seq<nat>)

  datatype Op = WrLock(t: nat) | RdLock(t: nat) | TryWrLock(t: nat) | TryRdLock(t: nat) | Unlock(t: nat)

  datatype Error = Ok | Blocked | Busy | NotPermitted

  function Init(): Lock { Lock(0, [], [], multiset{}, {}, [], []) }

  predicate Waits(k: Lock, t: nat) { t in k.readQueue || t in k.writeQueue }

  predicate Holds(k: Lock, t: nat) { t in k.readers || t in k.writer }

  /** Threads that sleep make no call, and only holders unlock a lock that is held. */
  predicate Allowed(k: Lock, op: Op) {
    !Waits(k, op.t) && (op.Unlock? && k.count != 0 ==> Holds(k, op.t))
  }

  function Step(k: Lock, op: Op): (Lock, Error) {
    match op
    case WrLock(t) =>
      if k.count == 0 then (AdmitNew(k, t), Ok)
      else (k.(writeQueue := k.writeQueue + [t], came := k.came + [t]), Blocked)
    case TryWrLock(t) => if k.count != 0 then (k, Busy) else (AdmitNew(k, t), Ok)
    case RdLock(t) =>
      if k.count >= 0 && k.writeQueue == [] then (Enter(k, t), Ok)
      else (k.(readQueue := k.readQueue + [t]), Blocked)
    case TryRdLock(t) => if k.count >= 0 && k.writeQueue == [] then (Enter(k, t), Ok) else (k, Busy)
    case Unlock(t) =>
      if k.count == 0 then (k, NotPermitted)
      else if k.count > 1 then (Leave(k, t).(count := k.count - 1), Ok)
      else (HandOff(Leave(k, t).(count := 0)), Ok)
  }

  function AdmitNew(k: Lock, t: nat): Lock {
    k.(count := k.count - 1, writer := {t}, came := k.came + [t], admitted := k.admitted + [t])
  }

  function Enter(k: Lock, t: nat): Lock {
    k.(count := k.count + 1, readers := k.readers + multiset{t})
  }

  function Leave(k: Lock, t: nat): Lock {
    k.(readers := k.readers - multiset{t}, writer := k.writer - {t})
  }

  /** The first waiting writer, or else all waiting readers, get the lock directly. */
  function HandOff(k: Lock): Lock {
    if k.writeQueue != [] then
      k.(count := k.count - 1, writer := {k.writeQueue[0]}, writeQueue := k.writeQueue[1..],
         admitted := k.admitted + [k.writeQueue[0]])
    else
      k.(count := k.count + |k.readQueue|, readers := k.readers + multiset(k.readQueue), readQueue := [])
  }

  /** What the count stands for, and who may be waiting. */
  predicate Inv(k: Lock) {
    && (if k.count < 0 then k.count == -1 && |k.writer| == 1 && k.readers == multiset{}
        else k.count == |k.readers| && k.writer == {})
    && (k.count == 0 ==> k.readQueue == [] && k.writeQueue == [])
    && (k.readQueue != [] ==> k.count < 0 || k.writeQueue != [])
    && k.came == k.admitted + k.writeQueue
  }

  lemma {:induction false} HandOffKeeps(k: Lock)
    requires k.count == 0 && k.readers == multiset{} && k.writer == {} && k.came == k.admitted + k.writeQueue
    ensures Inv(HandOff(k))
  {
    if k.writeQueue != [] {
      assert k.writeQueue == [k.writeQueue[0]] + k.writeQueue[1..];
      assert k.admitted + k.writeQueue == (k.admitted + [k.writeQueue[0]]) + k.writeQueue[1..];
    }
  }

  lemma {:induction false} LeaveKeeps(k: Lock, t: nat)
    requires Inv(k) && k.count != 0 && Holds(k, t)
    ensures Leave(k, t).writer == {}
    ensures k.count > 0 ==> |Leave(k, t).readers| == k.count - 1
    ensures k.count < 0 ==> Leave(k, t).readers == multiset{}
  {
    if k.count > 0 {
      assert k.readers == multiset{t} + (k.readers - multiset{t});
    } else {
      assert |k.writer - {t}| == |k.writer| - 1;
    }
  }

  lemma {:induction false} UnlockKeeps(k: Lock, t: nat)
    requires Inv(k) && k.count != 0 && Holds(k, t)
    ensures Inv(Step(k, Unlock(t)).0)
  {
    LeaveKeeps(k, t);
    if k.count <= 1 { HandOffKeeps(Leave(k, t).(count := 0)); }
  }

  lemma {:induction false} StepKeeps(k: Lock, op: Op)
    requires Inv(k) && Allowed(k, op)
    ensures Inv(Step(k, op).0)
  {
    match op
    case WrLock(t) => assert k.admitted + k.writeQueue + [t] == k.admitted + (k.writeQueue + [t]);
    case TryWrLock(t) =>
    case RdLock(t) =>
    case TryRdLock(t) =>
    case Unlock(t) => if k.count != 0 { UnlockKeeps(k, t); }
  }

  /** The lock after any sequence of calls; a call its caller may not make is not made. */
  ghost function Run(ops: seq<Op>): (k: Lock)
    ensures Inv(k)
    decreases |ops|
  {
    if ops == [] then Init()
    else
      var k, op := Run(ops[..|ops| - 1]), ops[|ops| - 1];
      if Allowed(k, op) then
        StepKeeps(k, op);
        Step(k, op).0
      else k
  }

  /** The count is -1 for one writer alone, or the number of readers without a writer. */
  lemma {:induction false} Exclusion(ops: seq<Op>)
    ensures var k := Run(ops);
            && (k.count == -1 <==> |k.writer| == 1)
            && (k.count != -1 ==> k.count == |k.readers| && k.writer == {})
            && (k.writer != {} ==> k.readers == multiset{} && |k.writer| == 1)
            && (k.count == 0 ==> k.readQueue == [] && k.writeQueue == [])
  {
    var k := Run(ops);
    assert k.writer != {} ==> |k.writer| >= 1;
  }

  /** No reader is admitted while a writer waits. */
  lemma {:induction false} WritersFirst(ops: seq<Op>, op: Op)
    requires Allowed(Run(ops), op)
    ensures var k, k' := Run(ops), Run(ops + [op]);
            k.writeQueue != [] ==> k'.readers <= k.readers
  {
    assert (ops + [op])[..|ops|] == ops;
  }

  lemma {:induction false} AdmissionStep(k: Lock, op: Op)
    requires Inv(k) && Allowed(k, op)
    ensures var k' := Step(k, op).0;
            && k.came <= k'.came && k.admitted <= k'.admitted
            && (k'.writer != k.writer && k'.writer != {} ==>
                  |k'.admitted| == |k.admitted| + 1 && k'.writer == {k'.admitted[|k.admitted|]})
  {
    if op.Unlock? && k.count != 0 { LeaveKeeps(k, op.t); }
  }

  /** Writers are admitted in the order they asked, whichever way they got the lock. */
  lemma {:induction false} WritersInArrivalOrder(ops: seq<Op>, op: Op)
    requires Allowed(Run(ops), op)
    ensures var k, k' := Run(ops), Run(ops + [op]);
            && k.came == k.admitted + k.writeQueue && k'.came == k'.admitted + k'.writeQueue
            && k.came <= k'.came && k.admitted <= k'.admitted
            && (k'.writer != k.writer && k'.writer != {} ==>
                  |k'.admitted| == |k.admitted| + 1 && k'.writer == {k'.admitted[|k.admitted|]})
  {
    hide Step, Allowed;
    assert (ops + [op])[..|ops|] == ops;
    AdmissionStep(Run(ops), op);
  }

  /** A lock that is given up while somebody waits is never left free. */
  lemma {:induction false} DirectHandOff(ops: seq<Op>, t: nat)
    requires Allowed(Run(ops), Unlock(t)) && Run(ops).count in {-1, 1}
    ensures var k, k' := Run(ops), Run(ops + [Unlock(t)]);
            && (k.writeQueue != [] ==> k'.writer == {k.writeQueue[0]} && k'.count == -1)
            && (k.writeQueue == [] ==> k'.count == |k.readQueue| && k'.readers == multiset(k.readQueue))
            && (k'.count == 0 <==> k.writeQueue == [] && k.readQueue == [])
  {
    var k := Run(ops);
    assert (ops + [Unlock(t)])[..|ops|] == ops;
    LeaveKeeps(k, t);
  }

  predicate Free(k: Lock) { k.readers == multiset{} && k.writer == {} }

  /** What a call is answered, and what it does, in terms of who holds the lock and who waits. */
  predicate Answered(k: Lock, op: Op, k': Lock, err: Error) {
    match op
    case WrLock(t) =>
      if Free(k) then err == Ok && k'.writer == {t} && k'.readers == multiset{} && k'.writeQueue == k.writeQueue
      else err == Blocked && k'.writeQueue == k.writeQueue + [t] && SameHolders(k, k') && k'.readQueue == k.readQueue
    case TryWrLock(t) =>
      if Free(k) then err == Ok && k'.writer == {t} && k'.readers == multiset{} && k'.writeQueue == k.writeQueue
      else err == Busy && k' == k
    case RdLock(t) =>
      if k.writer == {} && k.writeQueue == [] then
        err == Ok && k'.readers == k.readers + multiset{t} && k'.writer == {} && k'.readQueue == k.readQueue
      else err == Blocked && k'.readQueue == k.readQueue + [t] && SameHolders(k, k') && k'.writeQueue == k.writeQueue
    case TryRdLock(t) =>
      if k.writer == {} && k.writeQueue == [] then
        err == Ok && k'.readers == k.readers + multiset{t} && k'.writer == {} && k'.readQueue == k.readQueue
      else err == Busy && k' == k
    case Unlock(t) =>
      if Free(k) then err == NotPermitted && k' == k
      else if |k.readers| > 1 then
        err == Ok && k'.readers == k.readers - multiset{t} && k'.writer == {}
        && k'.readQueue == k.readQueue && k'.writeQueue == k.writeQueue
      else if k.writeQueue != [] then
        err == Ok && k'.writer == {k.writeQueue[0]} && k'.readers == multiset{}
        && k'.writeQueue == k.writeQueue[1..] && k'.readQueue == k.readQueue
      else err == Ok && k'.writer == {} && k'.readers == multiset(k.readQueue) && k'.readQueue == [] && k'.writeQueue == []
  }

  predicate SameHolders(k: Lock, k': Lock) { k'.readers == k.readers && k'.writer == k.writer }

  /** Every call in every run is answered so: refused or put to sleep exactly if
      it conflicts with a holder or a waiting writer. */
  lemma {:induction false} AnswersAreRight(ops: seq<Op>, op: Op)
    requires Allowed(Run(ops), op)
    ensures Answered(Run(ops), op, Step(Run(ops), op).0, Step(Run(ops), op).1)
    ensures Run(ops + [op]) == Step(Run(ops), op).0
  {
    var k := Run(ops);
    assert (ops + [op])[..|ops|] == ops;
    CountSays(k);
    match op
    case WrLock(t) =>
    case TryWrLock(t) =>
    case RdLock(t) =>
    case TryRdLock(t) =>
    case Unlock(t) => if k.count != 0 { UnlockAnswered(k, t); }
  }

  lemma {:induction false} CountSays(k: Lock)
    requires Inv(k)
    ensures k.count == 0 <==> Free(k)
    ensures k.count < 0 <==> k.writer != {}
    ensures k.count > 1 <==> |k.readers| > 1
  {
    assert k.writer != {} ==> |k.writer| >= 1;
    assert k.readers != multiset{} ==> |k.readers| >= 1;
  }

  lemma {:induction false} UnlockAnswered(k: Lock, t: nat)
    requires Inv(k) && k.count != 0 && Holds(k, t)
    ensures Answered(k, Unlock(t), Step(k, Unlock(t)).0, Step(k, Unlock(t)).1)
  {
    CountSays(k);
    LeaveKeeps(k, t);
    var l := Leave(k, t);
    assert k.count <= 1 ==> l.readers == multiset{};
    assert multiset{} + multiset(k.readQueue) == multiset(k.readQueue);
  }

  // ----- The code -----

  class WaitQueue {
    var threads: seq<nat>

    constructor ()
      ensures threads == []
    {
      threads := [];
    }

    method WaitOn(t: nat, last: bool)
      modifies this
      ensures threads == if last then old(threads) + [t] else [t] + old(threads)
    {
      if last { threads := threads + [t]; } else { threads := [t] + threads; }
    }

    /** wakeup_one; `t` is the thread made runnable, if any. */
    method WakeupOne(last: bool) returns (found: bool, t: nat)
      modifies this
      ensures found <==> old(threads) != []
      ensures found && !last ==> [t] + threads == old(threads)
      ensures found && last ==> threads + [t] == old(threads)
      ensures !found ==> threads == old(threads)
    {
      if threads == [] { return false, 0; }
      if last {
        t := threads[|threads| - 1];
        threads := threads[..|threads| - 1];
      } else {
        t := threads[0];
        threads := threads[1..];
      }
      found := true;
    }

    /** wakeup_all: the number of threads, and the threads, made runnable. */
    method WakeupAll() returns (n: nat, woken: seq<nat>)
      modifies this
      ensures threads == [] && woken == old(threads) && n == |woken|
    {
      n, woken := 0, [];
      while threads != []
        invariant woken + threads == old(threads) && n == |woken|
        decreases |threads|
      {
        woken := woken + [threads[0]];
        threads := threads[1..];
        n := n + 1;
      }
    }
  }

  class ReadWriteLock {
    var count: int
    const readers: WaitQueue
    const writers: WaitQueue
    ghost var state: Lock

    ghost predicate Valid()
      reads this, readers, writers
    {
      && readers != writers
      && state.count == count && state.readQueue == readers.threads && state.writeQueue == writers.threads
      && Inv(state)
    }

    constructor ()
      ensures Valid() && fresh(readers) && fresh(writers) && state == Init()
    {
      count := 0;
      readers := new WaitQueue();
      writers := new WaitQueue();
      state := Init();
    }

    method WrLock(t: nat) returns (sleeps: bool)
      requires Valid() && Allowed(state, Op.WrLock(t))
      modifies this, writers
      ensures Valid() && state == Step(old(state), Op.WrLock(t)).0
      ensures sleeps <==> Step(old(state), Op.WrLock(t)).1 == Blocked
    {
      StepKeeps(state, Op.WrLock(t));
      state := Step(state, Op.WrLock(t)).0;
      if count == 0 {
        count := count - 1;
        return false;
      }
      writers.WaitOn(t, true);
      sleeps := true;
    }

    method RdLock(t: nat) returns (sleeps: bool)
      requires Valid() && Allowed(state, Op.RdLock(t))
      modifies this, readers
      ensures Valid() && state == Step(old(state), Op.RdLock(t)).0
      ensures sleeps <==> Step(old(state), Op.RdLock(t)).1 == Blocked
    {
      StepKeeps(state, Op.RdLock(t));
      state := Step(state, Op.RdLock(t)).0;
      if count >= 0 && writers.threads == [] {
        count := count + 1;
        return false;
      }
      readers.WaitOn(t, true);
      sleeps := true;
    }

    method TryWrLock(t: nat) returns (err: Error)
      requires Valid() && Allowed(state, Op.TryWrLock(t))
      modifies this
      ensures Valid() && (state, err) == Step(old(state), Op.TryWrLock(t))
    {
      StepKeeps(state, Op.TryWrLock(t));
      state := Step(state, Op.TryWrLock(t)).0;
      err := Ok;
      if count != 0 { err := Busy; } else { count := count - 1; }
    }

    method TryRdLock(t: nat) returns (err: Error)
      requires Valid() && Allowed(state, Op.TryRdLock(t))
      modifies this
      ensures Valid() && (state, err) == Step(old(state), Op.TryRdLock(t))
    {
      StepKeeps(state, Op.TryRdLock(t));
      state := Step(state, Op.TryRdLock(t)).0;
      err := Ok;
      if count >= 0 && writers.threads == [] { count := count + 1; } else { err := Busy; }
    }

    /** `woken` are the threads that were handed the lock. */
    method Unlock(t: nat) returns (err: Error, woken: seq<nat>)
      requires Valid() && Allowed(state, Op.Unlock(t))
      modifies this, readers, writers
      ensures Valid() && (state, err) == Step(old(state), Op.Unlock(t))
      ensures old(count) in {-1, 1} ==>
                woken == if old(writers.threads) != [] then [old(writers.threads)[0]] else old(readers.threads)
      ensures old(count) !in {-1, 1} ==> woken == []
    {
      StepKeeps(state, Op.Unlock(t));
      state := Step(state, Op.Unlock(t)).0;
      woken := [];
      if count == 0 { return NotPermitted, []; }
      err := Ok;
      if count > 1 {
        count := count - 1;
        return;
      }
      count := 0;
      var found, w := writers.WakeupOne(false);
      if found {
        count := count - 1;
        woken := [w];
        return;
      }
      var n;
      n, woken := readers.WakeupAll();
      count := count + n;
    }
  }
}
