/**
 One CPU's round-robin scheduler: kernel/kern/rr-sched_locked.c under the entry
 points of kernel/kern/scheduler.c.  Bodies under the run-queue lock are single
 steps; a sleep, a yield or an exit is one step for its policy operation and one
 for the election that follows, so that wakeups from other CPUs fall in between.

 Thread 0 is the idle thread.  `phase` records where a thread is with respect to
 its wait queue: it registered with wait_on, or it was woken and has yet to finish
 the sched_sleep it registered for.
 */
module Scheduler {

  datatype Kind = Idle | Kernel | User

  datatype Run = Created | Ready | InKernel | InUser | Asleep | Dead

  datatype Phase = Normal | Registered | Woken

  datatype Thread = Thread(kind: Kind, run: Run, phase: Phase)

  datatype Cpu = Cpu(
    th: seq<Thread>, kthreads: seq<nat>, users: seq<nat>,
    count: int, kRunnable: int, uRunnable: int, current: nat, electing: bool)

  datatype Op =
    | Create(kind: Kind)      // sched_add_created of a new thread
    | WaitOn                  // the current thread registers in a wait queue
    | Wakeup(t: nat)          // sched_wakeup of a registered thread, from any CPU
    | Sleep                   // the current thread: rr_sleep
    | Yield                   // the current thread: rr_yield
    | Exit                    // the current thread: rr_exit
    | Elect                   // schedule, after one of the last three
    | ToUser                  // return to user space
    | ToKernel                // system call or interrupt

  function Boot(): Cpu { Cpu([Thread(Idle, InKernel, Normal)], [], [], 0, 0, 0, 0, false) }

  predicate Queued(r: Run) { r.Ready? || r.Created? }

  // ----- Run queues -----

  /** list_add_first / list_add_last on the list of the thread's kind, with its counters. */
  function Enqueue(c: Cpu, t: nat, first: bool): Cpu
    requires t < |c.th|
  {
    var d := c.(count := c.count + 1);
    if c.th[t].kind.Kernel? then
      d.(kRunnable := c.kRunnable + 1, kthreads := if first then [t] + c.kthreads else c.kthreads + [t])
    else
      d.(uRunnable := c.uRunnable + 1, users := if first then [t] + c.users else c.users + [t])
  }

  /** How often a thread stands in the run queues. */
  function Places(c: Cpu, t: nat): nat { multiset(c.kthreads)[t] + multiset(c.users)[t] }

  predicate Counters(c: Cpu) {
    && c.kRunnable == |c.kthreads| && c.uRunnable == |c.users| && c.count == |c.kthreads| + |c.users|
    && (forall i | 0 <= i < |c.kthreads| :: c.kthreads[i] < |c.th|)
    && (forall i | 0 <= i < |c.users| :: c.users[i] < |c.th|)
  }

  // ----- Steps -----

  /** What the caller of each operation has to respect. */
  predicate Allowed(c: Cpu, op: Op)
    requires c.current < |c.th|
  {
    var t := c.th[c.current];
    match op
    case Create(kind) => !kind.Idle?
    case WaitOn => !c.electing && t.run.InKernel? && t.phase.Normal? && !t.kind.Idle?
    case Wakeup(w) => w < |c.th| && c.th[w].phase.Registered?
    case Sleep => !c.electing && !t.phase.Normal?
    case Yield => !c.electing && t.phase.Normal? && t.run.InKernel?
    case Exit => !c.electing && t.phase.Normal? && t.run.InKernel? && !t.kind.Idle?
    case Elect => c.electing
    case ToUser => !c.electing && t.phase.Normal? && t.run.InKernel? && t.kind.User?
    case ToKernel => !c.electing && t.run.InUser?
  }

  function SetThread(c: Cpu, t: nat, x: Thread): Cpu
    requires t < |c.th|
  {
    c.(th := c.th[t := x])
  }

  function Step(c: Cpu, op: Op): Cpu
    requires c.current < |c.th| && Allowed(c, op)
  {
    var i, t := c.current, c.th[c.current];
    match op
    case Create(kind) => Enqueue(c.(th := c.th + [Thread(kind, Created, Normal)]), |c.th|, true)
    case WaitOn => SetThread(c, i, t.(phase := Registered))
    case Wakeup(w) => Enqueue(SetThread(c, w, c.th[w].(run := Ready, phase := Woken)), w, true)
    case Sleep => SetThread(c, i, if t.run.Ready? then t else t.(run := Asleep)).(electing := true)
    case Yield => c.(electing := true)
    case Exit => SetThread(c, i, t.(run := Dead)).(electing := true)
    case Elect => Dispatch(Requeue(c))
    case ToUser => SetThread(c, i, t.(run := InUser))
    case ToKernel => SetThread(c, i, t.(run := InKernel))
  }

  /** The first half of rr_elect: a thread that only yields goes to the end of its queue. */
  function Requeue(c: Cpu): Cpu
    requires c.current < |c.th|
  {
    var t := c.th[c.current];
    if t.run.InKernel? && !t.kind.Idle? then Enqueue(SetThread(c, c.current, t.(run := Ready)), c.current, false)
    else c
  }

  /** The second half, and the rest of schedule: kernel threads first, then users, else idle. */
  function Dispatch(c: Cpu): Cpu {
    if c.count > 0 && c.kthreads != [] then
      Switch(c.(kthreads := c.kthreads[1..], kRunnable := c.kRunnable - 1, count := c.count - 1), c.kthreads[0])
    else if c.count > 0 && c.users != [] then
      Switch(c.(users := c.users[1..], uRunnable := c.uRunnable - 1, count := c.count - 1), c.users[0])
    else Switch(c, 0)
  }

  function Switch(c: Cpu, t: nat): Cpu {
    if t < |c.th| then
      var x := c.th[t];
      var run := if t != c.current && x.run.Created? && x.kind.User? then InUser else InKernel;
      SetThread(c, t, x.(run := run, phase := Normal)).(current := t, electing := false)
    else c
  }

  // ----- The invariant -----

  /** What holds of a thread that stands `k` times in the kernel queue and `u` times in the user queue. */
  predicate ThreadOk(x: Thread, idle: bool, current: bool, electing: bool, k: nat, u: nat) {
    && k + u == (if Queued(x.run) then 1 else 0)
    && (k > 0 ==> x.kind.Kernel?) && (u > 0 ==> x.kind.User?)
    && (x.kind.Idle? <==> idle) && (idle ==> x.run.InKernel? && x.phase.Normal?)
    && (x.run.Asleep? ==> x.phase.Registered?)
    && (x.phase.Woken? ==> x.run.Ready?)
    && (x.phase.Registered? ==> x.run.Asleep? || (x.run.InKernel? && current))
    && (!current ==> idle || Queued(x.run) || x.run.Asleep? || x.run.Dead?)
    && (current && !electing ==>
          x.run.InKernel? || (x.run.InUser? && x.phase.Normal?) || (x.run.Ready? && x.phase.Woken?))
    && (current && electing ==>
          (x.run.InKernel? && x.phase.Normal?) || x.run.Asleep? || x.run.Ready? || x.run.Dead?)
  }

  ghost predicate ThreadInv(c: Cpu, t: nat)
    requires t < |c.th|
  {
    ThreadOk(c.th[t], t == 0, t == c.current, c.electing, multiset(c.kthreads)[t], multiset(c.users)[t])
  }

  ghost predicate Inv(c: Cpu) {
    && c.current < |c.th| && |c.th| > 0 && Counters(c)
    && forall t | 0 <= t < |c.th| :: ThreadInv(c, t)
  }

  lemma {:induction false} EnqueueIs(c: Cpu, t: nat, first: bool)
    requires t < |c.th| && Counters(c)
    ensures var d := Enqueue(c, t, first);
            && Counters(d) && d.th == c.th && d.current == c.current && d.electing == c.electing
            && multiset(d.kthreads) ==
                (if c.th[t].kind.Kernel? then multiset(c.kthreads) + multiset{t} else multiset(c.kthreads))
            && multiset(d.users) == (if c.th[t].kind.Kernel? then multiset(c.users) else multiset(c.users) + multiset{t})
  {
    assert multiset([t] + c.kthreads) == multiset(c.kthreads) + multiset{t};
    assert multiset([t] + c.users) == multiset(c.users) + multiset{t};
  }

  lemma {:induction false} NotPresent(s: seq<nat>, n: nat, t: nat)
    requires t >= n && forall i | 0 <= i < |s| :: s[i] < n
    ensures multiset(s)[t] == 0
  {
    assert t !in s;
  }

  lemma {:induction false} CreateKeeps(c: Cpu, kind: Kind)
    requires Inv(c) && !kind.Idle?
    ensures Inv(Step(c, Create(kind)))
  {
    var n := |c.th|;
    var m := c.(th := c.th + [Thread(kind, Created, Normal)]);
    NotPresent(c.kthreads, n, n);
    NotPresent(c.users, n, n);
    EnqueueIs(m, n, true);
    var d := Step(c, Create(kind));
    assert ThreadInv(d, n);
    hide ThreadOk, Enqueue;
    forall t | 0 <= t < |d.th| ensures ThreadInv(d, t) {
      if t < n { assert ThreadInv(c, t); }
    }
  }

  lemma {:induction false} WakeupKeeps(c: Cpu, w: nat)
    requires Inv(c) && w < |c.th| && c.th[w].phase.Registered?
    ensures Inv(Step(c, Wakeup(w)))
  {
    assert ThreadInv(c, w);
    EnqueueIs(SetThread(c, w, c.th[w].(run := Ready, phase := Woken)), w, true);
    var d := Step(c, Wakeup(w));
    assert ThreadInv(d, w);
    hide ThreadOk, Enqueue;
    forall t | 0 <= t < |d.th| ensures ThreadInv(d, t) { assert ThreadInv(c, t); }
  }

  /** Steps that only change the current thread, which stays out of or in the queues as it was. */
  lemma {:induction false} LocalKeeps(c: Cpu, op: Op)
    requires Inv(c) && Allowed(c, op) && (op.WaitOn? || op.Sleep? || op.Yield? || op.Exit? || op.ToUser? || op.ToKernel?)
    ensures Inv(Step(c, op))
  {
    var d := Step(c, op);
    assert ThreadInv(c, c.current);
    forall t | 0 <= t < |d.th| ensures ThreadInv(d, t) { assert ThreadInv(c, t); }
  }

  /** Between the two halves of an election the current thread is queued, asleep, dead or idle. */
  ghost predicate Elected(c: Cpu) {
    && Inv(c) && c.electing
    && (var x := c.th[c.current]; x.kind.Idle? || !x.run.InKernel?)
  }

  lemma {:induction false} YieldKeeps(c: Cpu)
    requires Inv(c) && c.electing && c.th[c.current].run.InKernel? && !c.th[c.current].kind.Idle?
    ensures Inv(Requeue(c)) && Requeue(c).th[c.current].run.Ready?
    ensures Requeue(c).current == c.current && Requeue(c).electing
  {
    var t, x, d := c.current, c.th[c.current], Requeue(c);
    assert ThreadInv(c, t);
    EnqueueIs(SetThread(c, t, x.(run := Ready)), t, false);
    hide Enqueue;
    assert ThreadInv(d, t);
    hide ThreadOk;
    forall i | 0 <= i < |d.th| ensures ThreadInv(d, i) {
      if i != t { assert ThreadInv(c, i); }
    }
  }

  lemma {:induction false} RequeueKeeps(c: Cpu)
    requires Inv(c) && c.electing
    ensures Elected(Requeue(c)) && Requeue(c).current == c.current
  {
    if c.th[c.current].run.InKernel? && !c.th[c.current].kind.Idle? {
      hide Requeue, ThreadInv;
      YieldKeeps(c);
    }
  }

  /** A thread that yields becomes the last of its queue, behind all that were there, and nothing else changes. */
  lemma {:induction false} YieldGoesLast(c: Cpu)
    requires Inv(c) && c.electing
    ensures var t, d := c.current, Requeue(c);
            var x := c.th[t];
            if !x.run.InKernel? || x.kind.Idle? then d == c
            else
              && |d.th| == |c.th| && d.th[t] == x.(run := Ready)
              && (forall i | 0 <= i < |c.th| && i != t :: d.th[i] == c.th[i])
              && d.current == t && t !in c.kthreads && t !in c.users
              && (if x.kind.Kernel? then d.kthreads == c.kthreads + [t] && d.users == c.users
                  else d.users == c.users + [t] && d.kthreads == c.kthreads)
  {
    assert ThreadInv(c, c.current);
  }

  lemma {:induction false} FirstIs(s: seq<nat>)
    requires s != []
    ensures multiset(s) == multiset{s[0]} + multiset(s[1..])
  {
    assert s == [s[0]] + s[1..];
  }

  /** The first thread of a queue gets the CPU. */
  lemma {:induction false} SwitchKeeps(c: Cpu, d: Cpu, t: nat)
    requires Elected(c) && t < |c.th| && d.th == c.th && d.current == c.current && d.electing && Counters(d)
    requires forall i | 0 <= i < |c.th| && i != t ::
               multiset(d.kthreads)[i] == multiset(c.kthreads)[i] && multiset(d.users)[i] == multiset(c.users)[i]
    requires multiset(d.kthreads)[t] == 0 && multiset(d.users)[t] == 0
    requires t == 0 || Queued(c.th[t].run)
    ensures Inv(Switch(d, t))
  {
    var e := Switch(d, t);
    assert ThreadInv(c, t) && ThreadInv(c, c.current);
    forall i | 0 <= i < |e.th| ensures ThreadInv(e, i) { assert ThreadInv(c, i); }
  }

  lemma {:induction false} KernelKeeps(c: Cpu)
    requires Elected(c) && c.kthreads != []
    ensures Inv(Switch(c.(kthreads := c.kthreads[1..], kRunnable := c.kRunnable - 1, count := c.count - 1), c.kthreads[0]))
  {
    hide ThreadOk, Switch;
    FirstIs(c.kthreads);
    HeadIs(c, c.kthreads[0]);
    SwitchKeeps(c, c.(kthreads := c.kthreads[1..], kRunnable := c.kRunnable - 1, count := c.count - 1), c.kthreads[0]);
  }

  lemma {:induction false} UserKeeps(c: Cpu)
    requires Elected(c) && c.users != []
    ensures Inv(Switch(c.(users := c.users[1..], uRunnable := c.uRunnable - 1, count := c.count - 1), c.users[0]))
  {
    hide ThreadOk, Switch;
    FirstIs(c.users);
    HeadIs(c, c.users[0]);
    SwitchKeeps(c, c.(users := c.users[1..], uRunnable := c.uRunnable - 1, count := c.count - 1), c.users[0]);
  }

  lemma {:induction false} DispatchKeeps(c: Cpu)
    requires Elected(c)
    ensures Inv(Dispatch(c))
  {
    hide ThreadInv, Switch;
    if c.kthreads != [] {
      KernelKeeps(c);
    } else if c.users != [] {
      UserKeeps(c);
    } else {
      SwitchKeeps(c, c, 0);
    }
  }

  /** A queued thread is queued once. */
  lemma {:induction false} HeadIs(c: Cpu, t: nat)
    requires Inv(c) && t < |c.th| && Places(c, t) > 0
    ensures Queued(c.th[t].run) && Places(c, t) == 1
  {
    assert ThreadInv(c, t);
  }

  lemma {:induction false} StepKeeps(c: Cpu, op: Op)
    requires Inv(c) && Allowed(c, op)
    ensures Inv(Step(c, op))
  {
    match op
    case Create(kind) => CreateKeeps(c, kind);
    case Wakeup(w) => WakeupKeeps(c, w);
    case Elect => RequeueKeeps(c); DispatchKeeps(Requeue(c));
    case _ => LocalKeeps(c, op);
  }

  // ----- Every execution -----

  lemma {:induction false} BootInv()
    ensures Inv(Boot())
  {
    assert ThreadInv(Boot(), 0);
  }

  /** The CPU after any sequence of operations; one that is not allowed does not happen. */
  ghost function After(ops: seq<Op>): (c: Cpu)
    ensures Inv(c)
    decreases |ops|
  {
    if ops == [] then
      BootInv();
      Boot()
    else
      var c, op := After(ops[..|ops| - 1]), ops[|ops| - 1];
      if Allowed(c, op) then
        StepKeeps(c, op);
        Step(c, op)
      else c
  }

  /** The counters are the queue lengths; a thread is queued once if it is runnable, and else not. */
  lemma {:induction false} QueuesExact(ops: seq<Op>, t: nat)
    requires t < |After(ops).th|
    ensures var c := After(ops);
            && c.count == |c.kthreads| + |c.users| && c.kRunnable == |c.kthreads| && c.uRunnable == |c.users|
            && Places(c, t) == (if Queued(c.th[t].run) then 1 else 0)
            && (t in c.kthreads ==> c.th[t].kind.Kernel?) && (t in c.users ==> c.th[t].kind.User?)
  {
    assert ThreadInv(After(ops), t);
  }

  /** A thread that sleeps has not been woken since it registered, so its wakeup is still to come. */
  lemma {:induction false} NoWakeupLost(ops: seq<Op>, t: nat)
    requires t < |After(ops).th|
    ensures var c := After(ops);
            && (c.th[t].run.Asleep? ==> c.th[t].phase.Registered?)
            && (c.th[t].phase.Woken? ==> c.th[t].run.Ready? && Places(c, t) == 1)
  {
    assert ThreadInv(After(ops), t);
  }

  /** What other CPUs do: they create threads here and wake threads up. */
  predicate Remote(ops: seq<Op>) {
    forall k | 0 <= k < |ops| :: ops[k].Create? || ops[k].Wakeup?
  }

  /** One remote operation on a thread that registered. */
  lemma {:induction false} RemoteStep(c: Cpu, op: Op)
    requires Inv(c) && !c.electing && !c.th[c.current].phase.Normal? && (op.Create? || op.Wakeup?) && Allowed(c, op)
    ensures var d := Step(c, op);
            && d.current == c.current && c.current < |d.th| && !d.electing
            && d.th[c.current].phase == if op == Wakeup(c.current) then Woken else c.th[c.current].phase
  {
  }

  /** A registered thread is woken exactly if somebody woke it, whatever else other CPUs did. */
  lemma {:induction false} RegisteredUntilWoken(ops: seq<Op>, mid: seq<Op>)
    requires var c := After(ops); !c.electing && c.th[c.current].phase.Registered?
    requires Remote(mid)
    ensures var t, c := After(ops).current, After(ops + mid);
            && c.current == t && t < |c.th| && !c.electing
            && c.th[t].phase == if Wakeup(t) in mid then Woken else Registered
    decreases |mid|
  {
    hide Step, ThreadInv, Allowed;
    if mid == [] {
      assert ops + mid == ops;
    } else {
      var rest, op := mid[..|mid| - 1], mid[|mid| - 1];
      RegisteredUntilWoken(ops, rest);
      assert (ops + mid)[..|ops + mid| - 1] == ops + rest && mid == rest + [op];
      var t, c := After(ops).current, After(ops + rest);
      assert Wakeup(t) in mid <==> Wakeup(t) in rest || op == Wakeup(t);
      if Allowed(c, op) { RemoteStep(c, op); } else { NotAllowed(c, op); }
    }
  }

  /** A creation of an idle thread does not happen, nor a second wakeup. */
  lemma {:induction false} NotAllowed(c: Cpu, op: Op)
    requires Inv(c) && !Allowed(c, op)
    ensures op == Wakeup(c.current) ==> !c.th[c.current].phase.Registered?
  {
  }

  /**
   Between wait_on and sched_sleep other CPUs may create and wake up threads as they like:
   the thread is runnable after its sleep, and queued once, if one of them woke it up, and
   asleep and in no queue otherwise.
   */
  lemma {:induction false} EarlyWakeupStands(ops: seq<Op>, mid: seq<Op>)
    requires var c := After(ops); !c.electing && c.th[c.current].phase.Registered?
    requires Remote(mid)
    ensures var t := After(ops).current;
            var c := After(ops + mid + [Sleep]);
            && c.current == t && t < |c.th| && c.electing
            && (if Wakeup(t) in mid then c.th[t].run.Ready? && Places(c, t) == 1
                else c.th[t].run.Asleep? && Places(c, t) == 0)
  {
    var t := After(ops).current;
    RegisteredUntilWoken(ops, mid);
    var c := After(ops + mid);
    assert (ops + mid + [Sleep])[..|ops + mid|] == ops + mid;
    assert ThreadInv(c, t);
    var d := After(ops + mid + [Sleep]);
    assert d == Step(c, Sleep);
    assert ThreadInv(d, t);
  }

  /** A user thread that runs for the first time starts in user mode. */
  predicate StartsInUser(c: Cpu, t: nat) {
    t < |c.th| && c.th[t].run.Created? && c.th[t].kind.User?
  }

  /** An election finds somebody exactly when a queue is non-empty or the caller yields; kernel threads first. */
  lemma {:induction false} ElectionIsRight(ops: seq<Op>)
    requires After(ops).electing
    ensures var c, d := Requeue(After(ops)), After(ops + [Elect]);
            && (d.current == 0 <==> c.kthreads == [] && c.users == [])
            && (c.kthreads != [] ==> d.current == c.kthreads[0] && d.kthreads == c.kthreads[1..] && d.users == c.users)
            && (c.kthreads == [] && c.users != [] ==> d.current == c.users[0] && d.users == c.users[1..])
            && (d.th[d.current].run.InKernel? || d.th[d.current].run.InUser?) && d.th[d.current].phase.Normal?
            && (d.th[d.current].run.InUser? <==> StartsInUser(c, d.current)) && !d.electing
  {
    hide Dispatch, Requeue, ThreadInv;
    assert (ops + [Elect])[..|ops|] == ops;
    RequeueKeeps(After(ops));
    DispatchIs(Requeue(After(ops)));
  }

  /** A yield followed by its election: the first of its queue with the caller
      behind all others, kernel threads before users. */
  lemma {:induction false} YieldElects(ops: seq<Op>)
    requires Allowed(After(ops), Yield) && !After(ops).th[After(ops).current].kind.Idle?
    ensures var c, d := After(ops), After(ops + [Yield] + [Elect]);
            var t := c.current;
            && !d.electing
            && d.current == (if c.th[t].kind.Kernel? then (c.kthreads + [t])[0]
                             else if c.kthreads != [] then c.kthreads[0] else (c.users + [t])[0])
  {
    var c := After(ops);
    assert (ops + [Yield])[..|ops|] == ops;
    var y := After(ops + [Yield]);
    assert y == Step(c, Yield);
    assert ThreadInv(c, c.current);
    YieldGoesLast(y);
    ElectionIsRight(ops + [Yield]);
  }

  /** Registering, entering and leaving the kernel change the current thread as they say, and nothing else. */
  lemma {:induction false} OwnSteps(ops: seq<Op>, op: Op)
    requires (op.WaitOn? || op.ToUser? || op.ToKernel?) && Allowed(After(ops), op)
    ensures var c, d := After(ops), After(ops + [op]);
            var x := c.th[c.current];
            && d == c.(th := d.th) && |d.th| == |c.th| && (forall i | 0 <= i < |c.th| && i != c.current :: d.th[i] == c.th[i])
            && d.th[c.current] == (if op.WaitOn? then x.(phase := Registered)
                                   else if op.ToUser? then x.(run := InUser) else x.(run := InKernel))
  {
    assert (ops + [op])[..|ops|] == ops;
  }

  /** A thread that is created or woken up becomes the first of its queue. */
  lemma {:induction false} NewcomersGoFirst(ops: seq<Op>, op: Op)
    requires (op.Create? || op.Wakeup?) && Allowed(After(ops), op)
    ensures var c, d := After(ops), After(ops + [op]);
            var t := if op.Create? then |c.th| else op.t;
            && t < |d.th| && Queued(d.th[t].run) && d.current == c.current && d.electing == c.electing
            && (if d.th[t].kind.Kernel? then d.kthreads == [t] + c.kthreads && d.users == c.users
                else d.users == [t] + c.users && d.kthreads == c.kthreads)
            && (op.Create? ==> d.th == c.th + [Thread(op.kind, Created, Normal)])
            && (op.Wakeup? ==> d.th == c.th[t := c.th[t].(run := Ready, phase := Woken)])
  {
    assert (ops + [op])[..|ops|] == ops;
  }

  /** Nobody is elected out of a queue but who is queued. */
  lemma {:induction false} DeadNotElected(c: Cpu, t: nat)
    requires Elected(c) && t < |c.th| && c.th[t].run.Dead?
    ensures t < |Dispatch(c).th| && Dispatch(c).th[t].run.Dead?
  {
    assert ThreadInv(c, t) && ThreadInv(c, 0);
    if c.kthreads != [] { QueuedInQueue(c, c.kthreads[0]); }
    if c.users != [] { QueuedInQueue(c, c.users[0]); }
    hide ThreadInv;
  }

  lemma {:induction false} QueuedInQueue(c: Cpu, t: nat)
    requires Inv(c) && (t in c.kthreads || t in c.users)
    ensures t < |c.th| && Queued(c.th[t].run)
  {
    assert t < |c.th|;
    assert ThreadInv(c, t);
  }

  /** A thread that exited stays dead. */
  lemma {:induction false} DeadStays(c: Cpu, op: Op, t: nat)
    requires Inv(c) && Allowed(c, op) && t < |c.th| && c.th[t].run.Dead?
    ensures t < |Step(c, op).th| && Step(c, op).th[t].run.Dead?
  {
    assert ThreadInv(c, t);
    assert ThreadInv(c, c.current);
    if op.Elect? {
      RequeueKeeps(c);
      hide ThreadInv, Dispatch;
      DeadNotElected(Requeue(c), t);
    }
  }

  lemma {:induction false} DeadIs(c: Cpu, t: nat)
    requires Inv(c) && t < |c.th| && c.th[t].run.Dead?
    ensures Places(c, t) == 0 && (c.current == t ==> c.electing)
  {
    assert ThreadInv(c, t);
  }

  /** After its exit a thread is dead for good, in no queue, and never runs again after the election that follows. */
  lemma {:induction false} ExitIsFinal(ops: seq<Op>, more: seq<Op>)
    requires Allowed(After(ops), Exit)
    ensures var t, c := After(ops).current, After(ops + [Exit] + more);
            t < |c.th| && c.th[t].run.Dead? && Places(c, t) == 0 && (c.current == t ==> c.electing)
    decreases |more|
  {
    hide ThreadInv, Step, Allowed, Counters;
    var t, c := After(ops).current, After(ops + [Exit] + more);
    if more == [] {
      assert ops + [Exit] + more == ops + [Exit];
      assert (ops + [Exit])[..|ops|] == ops;
      ExitKills(After(ops));
    } else {
      var rest, op := more[..|more| - 1], more[|more| - 1];
      ExitIsFinal(ops, rest);
      assert (ops + [Exit] + more)[..|ops| + |more|] == ops + [Exit] + rest;
      var b := After(ops + [Exit] + rest);
      if Allowed(b, op) { DeadStays(b, op, t); }
    }
    DeadIs(c, t);
  }

  lemma {:induction false} ExitKills(c: Cpu)
    requires Inv(c) && Allowed(c, Exit)
    ensures c.current < |Step(c, Exit).th| && Step(c, Exit).th[c.current].run.Dead?
  {
  }

  lemma {:induction false} DispatchIs(c: Cpu)
    requires Elected(c)
    ensures var d := Dispatch(c);
            && (d.current == 0 <==> c.kthreads == [] && c.users == [])
            && (c.kthreads != [] ==> d.current == c.kthreads[0] && d.kthreads == c.kthreads[1..] && d.users == c.users)
            && (c.kthreads == [] && c.users != [] ==> d.current == c.users[0] && d.users == c.users[1..])
            && d.current < |d.th| && !d.electing && (d.th[d.current].run.InUser? <==> StartsInUser(c, d.current))
            && (d.th[d.current].run.InKernel? || d.th[d.current].run.InUser?) && d.th[d.current].phase.Normal?
  {
    assert ThreadInv(c, c.current);
    assert ThreadInv(c, 0);
    hide ThreadOk;
    if c.kthreads != [] { NotIdle(c, c.kthreads[0]); }
    if c.users != [] { NotIdle(c, c.users[0]); }
  }

  lemma {:induction false} NotIdle(c: Cpu, t: nat)
    requires Inv(c) && t < |c.th| && (t in c.kthreads || t in c.users)
    ensures t != 0
  {
    assert ThreadInv(c, t);
  }

  // ----- The code -----

  class RoundRobin {
    var th: seq<Thread>
    var kthreads: seq<nat>
    var users: seq<nat>
    var count: int
    var kRunnable: int
    var uRunnable: int
    var current: nat
    ghost var electing: bool

    ghost function Now(): Cpu
      reads this
    {
      Cpu(th, kthreads, users, count, kRunnable, uRunnable, current, electing)
    }

    ghost predicate Valid()
      reads this
    {
      Inv(Now())
    }

    constructor ()
      ensures Valid() && Now() == Boot()
    {
      th, kthreads, users, count, kRunnable, uRunnable, current, electing :=
        [Thread(Idle, InKernel, Normal)], [], [], 0, 0, 0, 0, false;
      new;
      BootInv();
    }

    /** sched_add_created and rr_add_created */
    method AddCreated(kind: Kind)
      requires Valid() && Allowed(Now(), Create(kind))
      modifies this
      ensures Valid() && Now() == Step(old(Now()), Create(kind))
    {
      hide Inv;
      StepKeeps(Now(), Create(kind));
      var t := |th|;
      th := th + [Thread(kind, Created, Normal)];
      count := count + 1;
      if kind.Kernel? {
        kRunnable := kRunnable + 1;
        kthreads := [t] + kthreads;
      } else {
        uRunnable := uRunnable + 1;
        users := [t] + users;
      }
    }

    /** rr_wakeup */
    method Wakeup(t: nat)
      requires Valid() && Allowed(Now(), Op.Wakeup(t))
      modifies this
      ensures Valid() && Now() == Step(old(Now()), Op.Wakeup(t))
    {
      hide Inv;
      StepKeeps(Now(), Op.Wakeup(t));
      th := th[t := th[t].(run := Ready, phase := Woken)];
      count := count + 1;
      if th[t].kind.Kernel? {
        kRunnable := kRunnable + 1;
        kthreads := [t] + kthreads;
      } else {
        uRunnable := uRunnable + 1;
        users := [t] + users;
      }
    }

    /** rr_sleep */
    method Sleep()
      requires Valid() && Allowed(Now(), Op.Sleep)
      modifies this
      ensures Valid() && Now() == Step(old(Now()), Op.Sleep)
    {
      hide ThreadInv;
      StepKeeps(Now(), Op.Sleep);
      if !th[current].run.Ready? {
        th := th[current := th[current].(run := Asleep)];
      }
      assert th[current := th[current]] == th;
      electing := true;
    }

    /** rr_exit */
    method Exit()
      requires Valid() && Allowed(Now(), Op.Exit)
      modifies this
      ensures Valid() && Now() == Step(old(Now()), Op.Exit)
    {
      hide ThreadInv;
      StepKeeps(Now(), Op.Exit);
      th := th[current := th[current].(run := Dead)];
      electing := true;
    }

    /** The part of rr_elect that puts a yielding thread back. */
    method RequeueCurrent()
      requires current < |th|
      modifies this
      ensures Now() == Requeue(old(Now()))
    {
      if th[current].run.InKernel? && !th[current].kind.Idle? {
        th := th[current := th[current].(run := Ready)];
        if th[current].kind.User? {
          users := users + [current];
          uRunnable := uRunnable + 1;
        } else {
          kthreads := kthreads + [current];
          kRunnable := kRunnable + 1;
        }
        count := count + 1;
      }
    }

    /** The rest of rr_elect: 0, the idle thread, stands for NULL.  No list is taken from when it is empty. */
    method Pick() returns (elected: nat)
      requires Counters(Now())
      modifies this`count, this`kthreads, this`users, this`kRunnable, this`uRunnable
      ensures Switch(Now(), elected) == Dispatch(old(Now()))
      ensures old(count) > 0 ==> elected < |th|
      ensures old(count) <= 0 ==> elected == 0
    {
      hide Switch;
      elected := 0;
      if count > 0 {
        if kthreads != [] {
          elected := kthreads[0];
          kRunnable := kRunnable - 1;
          kthreads := kthreads[1..];
        } else {
          elected := users[0];
          uRunnable := uRunnable - 1;
          users := users[1..];
        }
        count := count - 1;
      }
    }

    /** schedule */
    method Schedule()
      requires Valid() && Allowed(Now(), Op.Elect)
      modifies this
      ensures Valid() && Now() == Step(old(Now()), Op.Elect)
    {
      hide ThreadInv, Dispatch, Requeue;
      StepKeeps(Now(), Op.Elect);
      RequeueKeeps(Now());
      RequeueCurrent();
      var elected := Pick();
      if elected != current && th[elected].run.Created? {
        th := th[elected := th[elected].(run := if th[elected].kind.User? then InUser else InKernel, phase := Normal)];
      } else {
        th := th[elected := th[elected].(run := InKernel, phase := Normal)];
      }
      current := elected;
      electing := false;
    }
  }
}
