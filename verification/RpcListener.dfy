/**
 The pending/drain handshake of kernel/kern/rpc.c: any number of senders, any
 number of threads that may become the handler, and one FIFO per priority.  One
 action is one shared access; putting and taking are single steps, as the remote
 FIFO provides them.  `sent`, `done` and `ran` record, for each FIFO, the messages put,
 those taken, and those whose handler has run.
 */
module RpcListener {

  datatype Msg = Msg(from: nat, id: nat)

  /** Where a sender is inside __rpc_send. */
  datatype Sender =
    | Quiet
    | Putting(prio: nat, m: Msg)   // retrying remote_fifo_put
    | Checking(m: Msg)             // about to read `pending`
    | Setting(m: Msg)              // read 0, about to compare-and-swap 0 by 1

  /** Where a thread is inside rpc_check_notify and rpc_listner_notify. */
  datatype Handler =
    | Off
    | SawFree                      // read handled == 0
    | SawWork                      // and pending != 0: about to test-and-set `handled`
    | Owner                        // has the role, about to read `pending`
    | Scan(prio: nat)              // about to get from this FIFO
    | Exec(prio: nat, m: Msg)      // runs the handler of a message of this FIFO
    | Swap                         // about to compare-and-swap pending 1 by 0
    | Leaving                      // about to store handled = 0

  datatype State = State(
    cap: nat, fifo: seq<seq<Msg>>, pending: bool, handled: int,
    snd: seq<Sender>, hnd: seq<Handler>, sent: seq<seq<Msg>>, done: seq<seq<Msg>>, ran: seq<seq<Msg>>)

  datatype Action =
    | Send(i: nat, prio: nat, id: nat)
    | Sender(i: nat, again: bool)   // after a successful swap: loop once more, or return
    | Handler(h: nat)

  const NOBODY := -1

  predicate Shape(s: State) {
    && |s.sent| == |s.done| == |s.ran| == |s.fifo|
    && (forall i | 0 <= i < |s.snd| && s.snd[i].Putting? :: s.snd[i].prio < |s.fifo|)
    && (forall h | 0 <= h < |s.hnd| && (s.hnd[h].Scan? || s.hnd[h].Exec?) :: s.hnd[h].prio < |s.fifo|)
  }

  function Act(s: State, a: Action): State
    requires Shape(s)
  {
    match a
    case Send(i, prio, id) =>
      if i < |s.snd| && s.snd[i].Quiet? && prio < |s.fifo| then
        s.(snd := s.snd[i := Putting(prio, Msg(i, id))])
      else s
    case Sender(i, again) => if i < |s.snd| then ActSender(s, i, again) else s
    case Handler(h) => if h < |s.hnd| then ActHandler(s, h) else s
  }

  function ActSender(s: State, i: nat, again: bool): State
    requires Shape(s) && i < |s.snd|
  {
    match s.snd[i]
    case Quiet => s
    case Putting(p, m) =>
      if |s.fifo[p]| < s.cap then
        s.(fifo := s.fifo[p := s.fifo[p] + [m]], sent := s.sent[p := s.sent[p] + [m]],
           snd := s.snd[i := Checking(m)])
      else s
    case Checking(m) => s.(snd := s.snd[i := if s.pending then Quiet else Setting(m)])
    case Setting(m) =>
      if s.pending then s.(snd := s.snd[i := Checking(m)])
      else s.(pending := true, snd := s.snd[i := if again then Checking(m) else Quiet])
  }

  function ActHandler(s: State, h: nat): State
    requires Shape(s) && h < |s.hnd|
  {
    match s.hnd[h]
    case Off => s.(hnd := s.hnd[h := if s.handled == NOBODY then SawFree else Off])
    case SawFree => s.(hnd := s.hnd[h := if s.pending then SawWork else Off])
    case SawWork =>
      if s.handled == NOBODY then s.(handled := h, hnd := s.hnd[h := Owner])
      else s.(hnd := s.hnd[h := Off])
    case Owner => s.(hnd := s.hnd[h := if s.pending then FirstScan(s) else Leaving])
    case Scan(p) =>
      if s.fifo[p] == [] then s.(hnd := s.hnd[h := if p + 1 < |s.fifo| then Scan(p + 1) else Swap])
      else s.(fifo := s.fifo[p := s.fifo[p][1..]], done := s.done[p := s.done[p] + [s.fifo[p][0]]],
              hnd := s.hnd[h := Exec(p, s.fifo[p][0])])
    case Exec(p, m) => s.(ran := s.ran[p := s.ran[p] + [m]], hnd := s.hnd[h := Scan(p)])
    case Swap =>
      if s.pending then s.(pending := false, hnd := s.hnd[h := FirstScan(s)])
      else s.(hnd := s.hnd[h := Leaving])
    case Leaving => s.(handled := NOBODY, hnd := s.hnd[h := Off])
  }

  /** The head of the for loop over priorities. */
  function FirstScan(s: State): Handler {
    if |s.fifo| > 0 then Scan(0) else Swap
  }

  // ----- The invariant -----

  predicate HasRole(h: Handler) { !h.Off? && !h.SawFree? && !h.SawWork? }

  /** The handler will still look at FIFO `p` in its current pass. */
  predicate WillScan(h: Handler, p: nat) { (h.Scan? || h.Exec?) && h.prio <= p }

  /** The sender of `m` is between its put and its store of `pending`. */
  predicate InFlight(snd: seq<Sender>, m: Msg) {
    m.from < |snd| && (snd[m.from] == Checking(m) || snd[m.from] == Setting(m))
  }

  ghost predicate SomeoneWillScan(hnd: seq<Handler>, p: nat) {
    exists h :: 0 <= h < |hnd| && WillScan(hnd[h], p)
  }

  ghost predicate Covered(pending: bool, snd: seq<Sender>, hnd: seq<Handler>, m: Msg, p: nat) {
    pending || InFlight(snd, m) || SomeoneWillScan(hnd, p)
  }

  /** `handled` names the one thread that has the role. */
  predicate RoleInv(handled: int, hnd: seq<Handler>) {
    forall h | 0 <= h < |hnd| :: HasRole(hnd[h]) <==> handled == h
  }

  ghost predicate CoverInv(fifo: seq<seq<Msg>>, pending: bool, snd: seq<Sender>, hnd: seq<Handler>) {
    forall p, k | 0 <= p < |fifo| && 0 <= k < |fifo[p]| :: Covered(pending, snd, hnd, fifo[p][k], p)
  }

  predicate LogInv(fifo: seq<seq<Msg>>, sent: seq<seq<Msg>>, done: seq<seq<Msg>>) {
    && |sent| == |done| == |fifo|
    && forall p | 0 <= p < |fifo| :: sent[p] == done[p] + fifo[p]
  }

  /** A sender sends its own messages. */
  predicate OwnInv(snd: seq<Sender>) {
    forall i | 0 <= i < |snd| && !snd[i].Quiet? :: snd[i].m.from == i
  }

  /** The message in the hands of the handler, if it is one of FIFO `p`. */
  function InHand(hnd: seq<Handler>, handled: int, p: nat): seq<Msg> {
    if 0 <= handled < |hnd| && hnd[handled].Exec? && hnd[handled].prio == p then [hnd[handled].m] else []
  }

  /** What was taken is what was run, in order, and what is being run. */
  predicate RanInv(done: seq<seq<Msg>>, ran: seq<seq<Msg>>, hnd: seq<Handler>, handled: int) {
    |done| == |ran| && forall p | 0 <= p < |done| :: done[p] == ran[p] + InHand(hnd, handled, p)
  }

  ghost predicate Inv(s: State) {
    && Shape(s) && OwnInv(s.snd) && -1 <= s.handled < |s.hnd|
    && RoleInv(s.handled, s.hnd)
    && LogInv(s.fifo, s.sent, s.done)
    && CoverInv(s.fifo, s.pending, s.snd, s.hnd)
    && RanInv(s.done, s.ran, s.hnd, s.handled)
  }

  lemma {:induction false} SenderStep(s: State, i: nat, again: bool)
    requires Inv(s) && i < |s.snd|
    ensures Inv(ActSender(s, i, again))
  {
    SenderCover(s, i, again);
    hide CoverInv;
    var s' := ActSender(s, i, again);
    assert LogInv(s'.fifo, s'.sent, s'.done);
  }

  lemma {:induction false} SenderCover(s: State, i: nat, again: bool)
    requires Inv(s) && i < |s.snd|
    ensures var s' := ActSender(s, i, again); CoverInv(s'.fifo, s'.pending, s'.snd, s'.hnd)
  {
    hide SomeoneWillScan, RoleInv, LogInv, RanInv;
    var s' := ActSender(s, i, again);
    forall p, k | 0 <= p < |s'.fifo| && 0 <= k < |s'.fifo[p]|
      ensures Covered(s'.pending, s'.snd, s'.hnd, s'.fifo[p][k], p)
    {
      if k < |s.fifo[p]| {
        assert s'.fifo[p][k] == s.fifo[p][k];
        assert Covered(s.pending, s.snd, s.hnd, s.fifo[p][k], p);
      }
    }
  }

  lemma {:induction false} ScanStep(s: State, h: nat)
    requires Inv(s) && h < |s.hnd| && s.hnd[h].Scan?
    ensures Inv(ActHandler(s, h))
  {
    var s', q := ActHandler(s, h), s.hnd[h].prio;
    assert HasRole(s.hnd[h]);
    forall p, k | 0 <= p < |s'.fifo| && 0 <= k < |s'.fifo[p]|
      ensures Covered(s'.pending, s'.snd, s'.hnd, s'.fifo[p][k], p)
    {
      var k' := if p == q then k + 1 else k;
      if p != q || s.fifo[q] != [] {
        assert s'.fifo[p][k] == s.fifo[p][k'];
        assert Covered(s.pending, s.snd, s.hnd, s.fifo[p][k'], p);
      }
      if SomeoneWillScan(s.hnd, p) {
        var g :| 0 <= g < |s.hnd| && WillScan(s.hnd[g], p);
        assert WillScan(s'.hnd[g], p);
      }
    }
    assert LogInv(s'.fifo, s'.sent, s'.done);
    RanStep(s, h);
  }

  lemma {:induction false} RanStep(s: State, h: nat)
    requires Shape(s) && RoleInv(s.handled, s.hnd) && RanInv(s.done, s.ran, s.hnd, s.handled) && h < |s.hnd|
    ensures var s' := ActHandler(s, h); RanInv(s'.done, s'.ran, s'.hnd, s'.handled)
  {
    var s' := ActHandler(s, h);
    assert HasRole(s.hnd[h]) <==> s.handled == h;
    forall p | 0 <= p < |s'.done| ensures s'.done[p] == s'.ran[p] + InHand(s'.hnd, s'.handled, p) {
      assert s.done[p] == s.ran[p] + InHand(s.hnd, s.handled, p);
    }
  }

  lemma {:induction false} HandlerStep(s: State, h: nat)
    requires Inv(s) && h < |s.hnd|
    ensures Inv(ActHandler(s, h))
  {
    if s.hnd[h].Scan? {
      ScanStep(s, h);
    } else {
      OtherCover(s, h);
      RanStep(s, h);
    }
  }

  lemma {:induction false} OtherCover(s: State, h: nat)
    requires Inv(s) && h < |s.hnd| && !s.hnd[h].Scan?
    ensures var s' := ActHandler(s, h); CoverInv(s'.fifo, s'.pending, s'.snd, s'.hnd)
  {
    hide LogInv, OwnInv;
    var s' := ActHandler(s, h);
    assert HasRole(s.hnd[h]) <==> s.handled == h;
    forall p, k | 0 <= p < |s'.fifo| && 0 <= k < |s'.fifo[p]|
      ensures Covered(s'.pending, s'.snd, s'.hnd, s'.fifo[p][k], p)
    {
      assert Covered(s.pending, s.snd, s.hnd, s.fifo[p][k], p);
      if SomeoneWillScan(s.hnd, p) {
        var g :| 0 <= g < |s.hnd| && WillScan(s.hnd[g], p);
        assert WillScan(s'.hnd[g], p);
      }
      if s.hnd[h].Swap? && s.pending {
        assert WillScan(s'.hnd[h], p);
      }
    }
  }

  lemma {:induction false} SendStep(s: State, i: nat, prio: nat, id: nat)
    requires Inv(s)
    ensures Inv(Act(s, Send(i, prio, id)))
  {
    hide LogInv, RoleInv;
    var s' := Act(s, Send(i, prio, id));
    forall p, k | 0 <= p < |s'.fifo| && 0 <= k < |s'.fifo[p]|
      ensures Covered(s'.pending, s'.snd, s'.hnd, s'.fifo[p][k], p)
    {
      assert Covered(s.pending, s.snd, s.hnd, s.fifo[p][k], p);
    }
  }

  lemma {:induction false} InvStep(s: State, a: Action)
    requires Inv(s)
    ensures Inv(Act(s, a))
    ensures var s' := Act(s, a);
            |s'.snd| == |s.snd| && |s'.hnd| == |s.hnd| && |s'.fifo| == |s.fifo|
  {
    hide CoverInv, LogInv, RoleInv, OwnInv, RanInv;
    match a
    case Send(i, prio, id) => SendStep(s, i, prio, id);
    case Sender(i, again) => if i < |s.snd| { SenderStep(s, i, again); }
    case Handler(h) => if h < |s.hnd| { HandlerStep(s, h); }
  }

  // ----- Every execution -----

  /** rpc_listner_init with `prios` FIFOs of capacity `cap`. */
  function Init(prios: nat, cap: nat, senders: nat, handlers: nat): State {
    State(cap, seq(prios, p => []), false, NOBODY, seq(senders, i => Quiet), seq(handlers, h => Off),
          seq(prios, p => []), seq(prios, p => []), seq(prios, p => []))
  }

  datatype Setup = Setup(prios: nat, cap: nat, senders: nat, handlers: nat)

  ghost function Run(c: Setup, acts: seq<Action>): (s: State)
    ensures Inv(s) && |s.snd| == c.senders && |s.hnd| == c.handlers && |s.fifo| == c.prios
    decreases |acts|
  {
    if acts == [] then Init(c.prios, c.cap, c.senders, c.handlers)
    else
      var s := Run(c, acts[..|acts| - 1]);
      InvStep(s, acts[|acts| - 1]);
      Act(s, acts[|acts| - 1])
  }

  /** No RPC is stranded: somebody still owes every queued message a look. */
  lemma {:induction false} NoRpcStranded(c: Setup, acts: seq<Action>, p: nat, k: nat)
    requires p < c.prios && k < |Run(c, acts).fifo[p]|
    ensures var s := Run(c, acts);
            s.pending || InFlight(s.snd, s.fifo[p][k]) || SomeoneWillScan(s.hnd, p)
  {
    var s := Run(c, acts);
    assert Covered(s.pending, s.snd, s.hnd, s.fifo[p][k], p);
  }

  /** When the handler leaves, what is left over is announced or about to be. */
  lemma {:induction false} LeftoversAreAnnounced(c: Setup, acts: seq<Action>, h: nat, p: nat, k: nat)
    requires p < c.prios && k < |Run(c, acts).fifo[p]| && h < c.handlers
    requires Run(c, acts).hnd[h].Leaving? || Run(c, acts).hnd[h].Swap?
    ensures var s := Run(c, acts); s.pending || InFlight(s.snd, s.fifo[p][k])
  {
    var s := Run(c, acts);
    assert Covered(s.pending, s.snd, s.hnd, s.fifo[p][k], p);
    assert HasRole(s.hnd[h]);
    forall g | 0 <= g < |s.hnd| ensures !WillScan(s.hnd[g], p) {
      if g != h { assert !HasRole(s.hnd[g]); }
    }
  }

  /** One thread drains at a time, so the FIFOs have a single reader. */
  lemma {:induction false} SingleReader(c: Setup, acts: seq<Action>, g: nat, h: nat)
    requires g < c.handlers && h < c.handlers
    requires HasRole(Run(c, acts).hnd[g]) && HasRole(Run(c, acts).hnd[h])
    ensures g == h && Run(c, acts).handled == g
  {
  }

  /** Handlers run in the order the messages were put, each once: what was put has run, is running, or is queued. */
  lemma {:induction false} HandledInOrder(c: Setup, acts: seq<Action>, p: nat)
    requires p < c.prios
    ensures var s := Run(c, acts);
            |s.sent| == |s.ran| == c.prios && s.sent[p] == s.ran[p] + InHand(s.hnd, s.handled, p) + s.fifo[p]
  {
    var s := Run(c, acts);
    assert s.done[p] == s.ran[p] + InHand(s.hnd, s.handled, p);
  }

  /** The message being run is the oldest that has not run yet. */
  lemma {:induction false} RunsTheOldest(c: Setup, acts: seq<Action>, h: nat)
    requires h < c.handlers && Run(c, acts).hnd[h].Exec?
    ensures var s := Run(c, acts);
            var p := s.hnd[h].prio;
            && p < c.prios && |s.sent| == |s.ran| == c.prios && |s.ran[p]| < |s.sent[p]|
            && s.hnd[h].m == s.sent[p][|s.ran[p]|]
  {
    var s := Run(c, acts);
    var p := s.hnd[h].prio;
    assert HasRole(s.hnd[h]);
    HandledInOrder(c, acts, p);
  }

  // ----- Sending and draining come to an end -----

  /** A sender that is not sending can send. */
  lemma {:induction false} SendStarts(c: Setup, acts: seq<Action>, i: nat, prio: nat, id: nat)
    requires i < c.senders && prio < c.prios && Run(c, acts).snd[i].Quiet?
    ensures var s, s' := Run(c, acts), Run(c, acts + [Send(i, prio, id)]);
            s' == s.(snd := s.snd[i := Putting(prio, Msg(i, id))])
  {
    assert (acts + [Send(i, prio, id)])[..|acts|] == acts;
  }

  /** A sender returns only when its message is announced. */
  lemma {:induction false} ReturnsAnnounced(c: Setup, acts: seq<Action>, i: nat, again: bool)
    requires i < c.senders && !Run(c, acts).snd[i].Quiet? && Run(c, acts + [Sender(i, again)]).snd[i].Quiet?
    ensures Run(c, acts + [Sender(i, again)]).pending
  {
    assert (acts + [Sender(i, again)])[..|acts|] == acts;
  }

  /** Left alone, a sender that finds room puts its message, announces it and returns. */
  lemma {:induction false} SendCompletes(c: Setup, acts: seq<Action>, i: nat)
    requires i < c.senders && Run(c, acts).snd[i].Putting?
    requires var s := Run(c, acts); |s.fifo[s.snd[i].prio]| < s.cap
    ensures var s, s' := Run(c, acts), Run(c, acts + [Sender(i, false)] + [Sender(i, false)] + [Sender(i, false)]);
            var p, m := s.snd[i].prio, s.snd[i].m;
            |s'.sent| == |s.sent| == c.prios &&
            s'.snd[i].Quiet? && s'.pending && s'.fifo[p] == s.fifo[p] + [m] && s'.sent[p] == s.sent[p] + [m]
  {
    hide CoverInv, LogInv, RoleInv, OwnInv, RanInv, Act;
    var a := Sender(i, false);
    var s, s1, s2 := Run(c, acts), Run(c, acts + [a]), Run(c, acts + [a] + [a]);
    assert (acts + [a])[..|acts|] == acts;
    assert (acts + [a] + [a])[..|acts| + 1] == acts + [a];
    assert (acts + [a] + [a] + [a])[..|acts| + 2] == acts + [a] + [a];
    SendSteps(s, s1, s2, i);
  }

  lemma {:induction false} SendSteps(s: State, s1: State, s2: State, i: nat)
    requires Shape(s) && Shape(s1) && Shape(s2) && i < |s.snd| && s.snd[i].Putting? && |s.fifo[s.snd[i].prio]| < s.cap
    requires s1 == Act(s, Sender(i, false)) && s2 == Act(s1, Sender(i, false))
    ensures var s3 := Act(s2, Sender(i, false));
            var p, m := s.snd[i].prio, s.snd[i].m;
            && |s3.snd| == |s.snd| && |s3.fifo| == |s3.sent| == |s.fifo|
            && s3.snd[i].Quiet? && s3.pending && s3.fifo[p] == s.fifo[p] + [m] && s3.sent[p] == s.sent[p] + [m]
  {
  }

  function Total(fifo: seq<seq<Msg>>): nat {
    if fifo == [] then 0 else Total(fifo[..|fifo| - 1]) + |fifo[|fifo| - 1]|
  }

  lemma {:induction false} TotalTaken(fifo: seq<seq<Msg>>, p: nat)
    requires p < |fifo| && fifo[p] != []
    ensures Total(fifo[p := fifo[p][1..]]) + 1 == Total(fifo)
  {
    var m := |fifo| - 1;
    if p < m {
      TotalTaken(fifo[..m], p);
      assert fifo[p := fifo[p][1..]][..m] == fifo[..m][p := fifo[p][1..]];
    } else {
      assert fifo[p := fifo[p][1..]][..m] == fifo[..m];
    }
  }

  /** How far a thread is from being off duty with nothing pending, with `prios` FIFOs. */
  function Distance(h: Handler, pending: bool, prios: nat): nat {
    match h
    case Off => if pending then prios + 6 else 0
    case SawFree => if pending then prios + 5 else 1
    case SawWork => if pending then prios + 4 else 3
    case Owner => if pending then prios + 3 else 2
    case Exec(p, _) => (if p < prios then prios - p else 0) + if pending then 2 else 4
    case Scan(p) => (if p < prios then prios - p else 0) + if pending then 1 else 3
    case Swap => if pending then 1 else 2
    case Leaving => if pending then prios + 7 else 1
  }

  ghost function ToDo(s: State, h: nat): nat
    requires h < |s.hnd|
  {
    2 * Total(s.fifo) + (if s.pending then |s.fifo| + 4 else 0) + Distance(s.hnd[h], s.pending, |s.fifo|)
  }

  /** Nobody sends, and no other thread has the role. */
  ghost predicate Alone(s: State, h: nat) {
    && h < |s.hnd| && (forall i | 0 <= i < |s.snd| :: s.snd[i].Quiet?)
    && forall g | 0 <= g < |s.hnd| && g != h :: !HasRole(s.hnd[g])
  }

  lemma {:induction false} RoleHolder(handled: int, hnd: seq<Handler>)
    requires RoleInv(handled, hnd) && -1 <= handled < |hnd|
    ensures handled != NOBODY ==> HasRole(hnd[handled])
  {
  }

  lemma {:induction false} AloneStep(s: State, h: nat)
    requires Inv(s) && Alone(s, h) && !(s.hnd[h].Off? && !s.pending)
    ensures Alone(ActHandler(s, h), h) && ToDo(ActHandler(s, h), h) < ToDo(s, h)
  {
    var s' := ActHandler(s, h);
    hide CoverInv, LogInv, OwnInv, RanInv;
    assert HasRole(s.hnd[h]) <==> s.handled == h;
    RoleHolder(s.handled, s.hnd);
    if s.hnd[h].Scan? && s.fifo[s.hnd[h].prio] != [] { TotalTaken(s.fifo, s.hnd[h].prio); }
  }

  /** With nobody sending, nothing pending and nobody on duty, every FIFO is empty. */
  lemma {:induction false} NothingLeft(s: State, h: nat, p: nat)
    requires Inv(s) && Alone(s, h) && s.hnd[h].Off? && !s.pending && p < |s.fifo|
    ensures s.fifo[p] == [] && s.ran[p] == s.sent[p]
  {
    assert forall g | 0 <= g < |s.hnd| :: !HasRole(s.hnd[g]);
    assert forall g | 0 <= g < |s.hnd| :: !WillScan(s.hnd[g], p);
    assert 0 < |s.fifo[p]| ==> Covered(s.pending, s.snd, s.hnd, s.fifo[p][0], p);
    RoleHolder(s.handled, s.hnd);
    assert s.done[p] == s.ran[p] + InHand(s.hnd, s.handled, p);
  }

  /**
   Every drain ends, and with everything handled: once the senders are done, any thread that
   goes on while no other has the role needs at most `ToDo` steps, all its own, until every
   message that was put has run.
   */
  lemma {:induction false} DrainEnds(c: Setup, acts: seq<Action>, h: nat) returns (more: seq<Action>)
    requires h < c.handlers && Alone(Run(c, acts), h)
    ensures |more| <= ToDo(Run(c, acts), h) && forall k | 0 <= k < |more| :: more[k] == Handler(h)
    ensures var e := Run(c, acts + more);
            && !e.pending && e.hnd[h].Off? && |e.ran| == |e.sent| == c.prios
            && forall p | 0 <= p < c.prios :: e.fifo[p] == [] && e.ran[p] == e.sent[p]
    decreases ToDo(Run(c, acts), h)
  {
    hide Alone, ActHandler, ToDo;
    var s := Run(c, acts);
    if s.hnd[h].Off? && !s.pending {
      more := [];
      assert acts + more == acts;
      forall p | 0 <= p < c.prios ensures s.fifo[p] == [] && s.ran[p] == s.sent[p] { NothingLeft(s, h, p); }
    } else {
      AloneStep(s, h);
      assert (acts + [Handler(h)])[..|acts|] == acts;
      assert Run(c, acts + [Handler(h)]) == ActHandler(s, h);
      var rest := DrainEnds(c, acts + [Handler(h)], h);
      more := [Handler(h)] + rest;
      assert acts + more == acts + [Handler(h)] + rest;
    }
  }
}
