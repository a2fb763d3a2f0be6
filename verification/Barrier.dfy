/**
 The two-ticket barrier of kernel/kern/mcs_sync.c, as `n` threads that each
 call mcs_barrier_wait again and again.  One action is one shared access of one
 thread; a spinning thread that reads a closed ticket stays where it is.  An
 execution is any sequence of thread numbers.
 */
module Barrier {
  import opened Counting

  /** Where a thread is inside mcs_barrier_wait; `ph` is the phase it read. */
  datatype Pc =
    | Out
    | Chosen(ph: nat)    // phase and ticket chosen
    | Spinning(ph: nat)  // counter decremented, not the last one
    | Flip(ph: nat)      // the last one: about to write phase,
    | Refill(ph: nat)    //   then cntr,
    | Reset(ph: nat)     //   then the ticket of the next round,
    | Open(ph: nat)      //   then the ticket of this round

  /** `arrived` counts the decrements a thread has made, `left` the calls it has returned from. */
  datatype Thread = Thread(pc: Pc, arrived: nat, left: nat)

  datatype State = State(n: nat, phase: nat, cntr: int, ticket: seq<nat>, th: seq<Thread>)

  function Init(n: nat): State {
    State(n, 0, n, [0, 0], seq(n, i => Thread(Out, 0, 0)))
  }

  predicate WellFormed(s: State) {
    && s.n >= 1 && |s.th| == s.n && |s.ticket| == 2 && s.phase < 2
    && forall i | 0 <= i < s.n :: s.th[i].pc.Out? || s.th[i].pc.ph < 2
  }

  function Act(s: State, i: nat): State
    requires WellFormed(s) && i < s.n
  {
    var t := s.th[i];
    match t.pc
    case Out => s.(th := s.th[i := t.(pc := Chosen(s.phase))])
    case Chosen(ph) =>
      s.(cntr := s.cntr - 1,
         th := s.th[i := t.(arrived := t.arrived + 1, pc := if s.cntr == 1 then Flip(ph) else Spinning(ph))])
    case Spinning(ph) =>
      if s.ticket[ph] == 0 then s else s.(th := s.th[i := t.(pc := Out, left := t.left + 1)])
    case Flip(ph) => s.(phase := 1 - ph, th := s.th[i := t.(pc := Refill(ph))])
    case Refill(ph) => s.(cntr := s.n, th := s.th[i := t.(pc := Reset(ph))])
    case Reset(ph) => s.(ticket := s.ticket[1 - ph := 0], th := s.th[i := t.(pc := Open(ph))])
    case Open(ph) =>
      s.(ticket := s.ticket[ph := 1], th := s.th[i := t.(pc := Out, left := t.left + 1)])
  }

  /** How many threads have already decremented the counter in round `g`. */
  function Here(th: seq<Thread>, g: nat): nat {
    Count(th, (t: Thread) => t.arrived == g + 1)
  }

  /** A thread in the course of round `g`, or still on its way out of the round before. */
  predicate InRound(t: Thread, g: nat) {
    match t.pc
    case Out => t.arrived == g && t.left == g
    case Chosen(ph) => t.arrived == g && t.left == g && ph == g % 2
    case Spinning(ph) =>
      || (t.arrived == g + 1 && t.left == g && ph == g % 2)
      || (g > 0 && t.arrived == g && t.left == g - 1 && ph == (g + 1) % 2)
    case _ => false
  }

  /** Round `g` is filling up. */
  predicate Filling(s: State, g: nat) {
    && WellFormed(s)
    && s.phase == g % 2 && s.ticket[g % 2] == 0 && (g > 0 ==> s.ticket[(g + 1) % 2] == 1)
    && (forall i | 0 <= i < s.n :: InRound(s.th[i], g))
    && s.cntr == s.n - Here(s.th, g) && s.cntr >= 1
  }

  /** All have arrived in round `g`, and thread `l`, the last one, is closing it. */
  predicate Closing(s: State, g: nat, l: nat) {
    && WellFormed(s) && l < s.n && s.ticket[g % 2] == 0
    && !s.th[l].pc.Out? && !s.th[l].pc.Chosen? && !s.th[l].pc.Spinning? && s.th[l].pc.ph == g % 2
    && (forall i | 0 <= i < s.n :: s.th[i].arrived == g + 1 && s.th[i].left == g)
    && (forall i | 0 <= i < s.n && i != l :: s.th[i].pc == Spinning(g % 2))
    && s.phase == (if s.th[l].pc.Flip? then g % 2 else (g + 1) % 2)
    && s.cntr == (if s.th[l].pc.Flip? || s.th[l].pc.Refill? then 0 else s.n)
    && (s.th[l].pc.Open? ==> s.ticket[(g + 1) % 2] == 0)
  }

  ghost predicate Inv(s: State) {
    (exists g: nat :: Filling(s, g)) || (exists g: nat, l: nat :: Closing(s, g, l))
  }

  lemma {:induction false} FillingStep(s: State, i: nat, g: nat)
    requires Filling(s, g) && i < s.n
    ensures Filling(Act(s, i), g) || Closing(Act(s, i), g, i)
  {
    var t, s' := s.th[i], Act(s, i);
    assert InRound(t, g);
    if t.pc.Chosen? && s.cntr == 1 {
      LastArrives(s, i, g);
    } else if t.pc.Spinning? && s.ticket[t.pc.ph] == 0 {
      assert s' == s;
    } else {
      StillFilling(s, i, g);
    }
  }

  lemma {:induction false} HereUpdate(th: seq<Thread>, i: nat, t: Thread, g: nat)
    requires i < |th|
    ensures Here(th[i := t], g) + (if th[i].arrived == g + 1 then 1 else 0)
         == Here(th, g) + (if t.arrived == g + 1 then 1 else 0)
  {
    CountUpdate(th, i, t, (t: Thread) => t.arrived == g + 1);
  }

  lemma {:induction false} StillFilling(s: State, i: nat, g: nat)
    requires Filling(s, g) && i < s.n && !(s.th[i].pc.Chosen? && s.cntr == 1)
    requires s.th[i].pc.Spinning? ==> s.ticket[s.th[i].pc.ph] != 0
    ensures Filling(Act(s, i), g)
  {
    hide Here;
    var s' := Act(s, i);
    assert InRound(s.th[i], g);
    HereUpdate(s.th, i, s'.th[i], g);
    assert InRound(s'.th[i], g);
    forall k | 0 <= k < s'.n ensures InRound(s'.th[k], g) { assert k != i ==> InRound(s.th[k], g); }
  }

  lemma {:induction false} LastArrives(s: State, i: nat, g: nat)
    requires Filling(s, g) && i < s.n && s.th[i].pc.Chosen? && s.cntr == 1
    ensures Closing(Act(s, i), g, i)
  {
    var s' := Act(s, i);
    var p := (t: Thread) => t.arrived == g + 1;
    assert InRound(s.th[i], g);
    CountUpdate(s.th, i, s'.th[i], p);
    CountBounds(s'.th, p);
    forall k | 0 <= k < s.n
      ensures s'.th[k].arrived == g + 1 && s'.th[k].left == g && (k != i ==> s'.th[k].pc == Spinning(g % 2))
    {
      assert InRound(s.th[k], g);
      assert p(s'.th[k]);
    }
  }

  lemma {:induction false} ClosingStep(s: State, i: nat, g: nat, l: nat)
    requires Closing(s, g, l) && i < s.n
    ensures if i == l && s.th[l].pc.Open? then Filling(Act(s, i), g + 1) else Closing(Act(s, i), g, l)
  {
    var s' := Act(s, i);
    if i == l && s.th[l].pc.Open? {
      OpenedUp(s, g, l);
    } else {
      assert Closing(s', g, l);
    }
  }

  lemma {:induction false} OpenedUp(s: State, g: nat, l: nat)
    requires Closing(s, g, l) && s.th[l].pc.Open?
    ensures Filling(Act(s, l), g + 1)
  {
    var s' := Act(s, l);
    CountBounds(s'.th, (t: Thread) => t.arrived == g + 1 + 1);
    forall k | 0 <= k < s.n ensures InRound(s'.th[k], g + 1) {
    }
  }

  lemma {:induction false} InvStep(s: State, i: nat)
    requires Inv(s) && i < s.n
    ensures WellFormed(s) && Inv(Act(s, i)) && Act(s, i).n == s.n
  {
    if g: nat :| Filling(s, g) {
      FillingStep(s, i, g);
    } else {
      var g: nat, l: nat :| Closing(s, g, l);
      ClosingStep(s, i, g, l);
    }
  }

  lemma {:induction false} InitFilling(n: nat)
    requires n >= 1
    ensures Filling(Init(n), 0)
  {
    CountBounds(Init(n).th, (t: Thread) => t.arrived == 1);
    CountBounds(Init(n).th, (t: Thread) => t.arrived == 0 + 1);
  }

  /** The state after the threads named in `sched` have acted, one after the other. */
  ghost function Run(n: nat, sched: seq<nat>): (s: State)
    requires n >= 1 && forall k | 0 <= k < |sched| :: sched[k] < n
    ensures Inv(s) && s.n == n
  {
    if sched == [] then
      InitFilling(n);
      Init(n)
    else
      var s := Run(n, sched[..|sched| - 1]);
      InvStep(s, sched[|sched| - 1]);
      Act(s, sched[|sched| - 1])
  }

  /** A thread outside enters with the phase it reads, and nobody else notices. */
  lemma {:induction false} Enters(n: nat, sched: seq<nat>, i: nat)
    requires n >= 1 && (forall k | 0 <= k < |sched| :: sched[k] < n) && i < n && Run(n, sched).th[i].pc.Out?
    ensures var s, s' := Run(n, sched), Run(n, sched + [i]);
            s' == s.(th := s.th[i := s.th[i].(pc := Chosen(s.phase))])
  {
    assert (sched + [i])[..|sched|] == sched;
  }

  /** No thread leaves a round before every thread has entered it. */
  lemma {:induction false} NobodyLeavesEarly(n: nat, sched: seq<nat>, i: nat, j: nat)
    requires n >= 1 && forall k | 0 <= k < |sched| :: sched[k] < n
    requires i < n && j < n
    ensures var s := Run(n, sched);
            |s.th| == n && s.th[i].left <= s.th[j].arrived && s.th[j].arrived <= s.th[i].left + 2
  {
    var s := Run(n, sched);
    if g: nat :| Filling(s, g) {
      assert InRound(s.th[i], g) && InRound(s.th[j], g);
    } else {
      var g: nat, l: nat :| Closing(s, g, l);
    }
  }

  /** A thread that may leave its round keeps that right until it does. */
  lemma {:induction false} OpenTicketStaysOpen(n: nat, sched: seq<nat>, i: nat, j: nat)
    requires n >= 1 && forall k | 0 <= k < |sched| :: sched[k] < n
    requires i < n && j < n && i != j
    ensures var s := Run(n, sched);
            WellFormed(s) &&
            (s.th[i].pc.Spinning? && s.ticket[s.th[i].pc.ph] != 0 ==>
              var s' := Act(s, j);
              s'.th[i] == s.th[i] && s'.ticket[s.th[i].pc.ph] != 0)
  {
    var s := Run(n, sched);
    if g: nat :| Filling(s, g) {
      assert InRound(s.th[i], g) && InRound(s.th[j], g);
    } else {
      var g: nat, l: nat :| Closing(s, g, l);
    }
  }

  /** The ticket that the last thread closes for the next round has nobody waiting at it. */
  lemma {:induction false} ResetHurtsNobody(n: nat, sched: seq<nat>, l: nat, i: nat)
    requires n >= 1 && forall k | 0 <= k < |sched| :: sched[k] < n
    requires l < n && i < n && Run(n, sched).th[l].pc.Reset?
    ensures var s := Run(n, sched);
            s.th[i].pc.Spinning? ==> s.th[i].pc.ph != 1 - s.th[l].pc.ph
  {
    var s := Run(n, sched);
    if g: nat :| Filling(s, g) {
      assert false;
    } else {
      var g: nat, m: nat :| Closing(s, g, m);
    }
  }

  /** With all threads inside, somebody can move. */
  lemma {:induction false} NoDeadlock(n: nat, sched: seq<nat>)
    requires n >= 1 && forall k | 0 <= k < |sched| :: sched[k] < n
    requires forall i | 0 <= i < n :: !Run(n, sched).th[i].pc.Out?
    ensures var s := Run(n, sched);
            WellFormed(s) && exists i :: 0 <= i < n && Act(s, i) != s
  {
    var s := Run(n, sched);
    if g: nat :| Filling(s, g) {
      var i := SomeoneToCome(s, g);
      assert Act(s, i).th[i] != s.th[i];
    } else {
      var g: nat, l: nat :| Closing(s, g, l);
      assert Act(s, l).th[l] != s.th[l];
    }
  }

  lemma {:induction false} SomeoneToCome(s: State, g: nat) returns (i: nat)
    requires Filling(s, g)
    ensures i < s.n && s.th[i].arrived == g && InRound(s.th[i], g)
  {
    CountBounds(s.th, (t: Thread) => t.arrived == g + 1);
    i :| 0 <= i < s.n && s.th[i].arrived != g + 1;
    assert InRound(s.th[i], g);
  }

  // ----- The end of a round -----

  /** How many accesses a thread has left, at most, until it is out. */
  function Rank(pc: Pc): nat {
    match pc
    case Out => 0
    case Spinning(_) => 1
    case Open(_) => 2
    case Reset(_) => 3
    case Refill(_) => 4
    case Flip(_) => 5
    case Chosen(_) => 6
  }

  function Work(th: seq<Thread>): nat {
    if th == [] then 0 else Work(th[..|th| - 1]) + Rank(th[|th| - 1].pc)
  }

  lemma {:induction false} WorkUpdate(th: seq<Thread>, i: nat, t: Thread)
    requires i < |th|
    ensures Work(th[i := t]) + Rank(th[i].pc) == Work(th) + Rank(t.pc)
  {
    var m := |th| - 1;
    if i < m {
      WorkUpdate(th[..m], i, t);
      assert th[i := t][..m] == th[..m][i := t];
    } else {
      assert th[i := t][..m] == th[..m];
    }
  }

  lemma {:induction false} WorkBound(th: seq<Thread>)
    ensures Work(th) <= 6 * |th|
  {
    if th != [] { WorkBound(th[..|th| - 1]); }
  }

  /** All threads are in round `g` or have left it: coming in, being let out, or going out. */
  ghost predicate Together(s: State, g: nat) {
    || (Filling(s, g) && forall i | 0 <= i < s.n :: !s.th[i].pc.Out? && s.th[i].left == g)
    || (exists l: nat :: Closing(s, g, l))
    || (Filling(s, g + 1) && forall i | 0 <= i < s.n :: s.th[i].pc.Out? || (s.th[i].pc.Spinning? && s.th[i].left == g))
  }

  /** A step of a thread inside keeps the round together, and brings its end nearer if it does anything. */
  lemma {:induction false} TogetherStep(s: State, g: nat, i: nat)
    requires Together(s, g) && WellFormed(s) && i < s.n && !s.th[i].pc.Out?
    ensures Together(Act(s, i), g) && WellFormed(Act(s, i)) && Act(s, i).n == s.n
    ensures Act(s, i) == s || Work(Act(s, i).th) < Work(s.th)
  {
    var s' := Act(s, i);
    if s' != s { WorkUpdate(s.th, i, s'.th[i]); }
    if l: nat :| Closing(s, g, l) {
      ClosingStep(s, i, g, l);
    } else if Filling(s, g) && forall k | 0 <= k < s.n :: !s.th[k].pc.Out? && s.th[k].left == g {
      assert InRound(s.th[i], g);
      FillingStep(s, i, g);
    } else {
      assert InRound(s.th[i], g + 1);
      FillingStep(s, i, g + 1);
    }
  }

  /** Until everybody is out, some thread inside can move. */
  lemma {:induction false} TogetherMoves(s: State, g: nat)
    requires Together(s, g) && WellFormed(s)
    ensures (forall i | 0 <= i < s.n :: s.th[i].pc.Out? && s.th[i].left == g + 1) || exists i: nat :: Moves(s, i)
  {
    if l: nat :| Closing(s, g, l) {
      assert Moves(s, l) by { assert Act(s, l).th[l] != s.th[l]; }
    } else if Filling(s, g) && forall k | 0 <= k < s.n :: !s.th[k].pc.Out? && s.th[k].left == g {
      var i := SomeoneToCome(s, g);
      assert Moves(s, i) by { assert Act(s, i).th[i] != s.th[i]; }
    } else if i: nat :| i < s.n && !s.th[i].pc.Out? {
      assert InRound(s.th[i], g + 1);
      assert Moves(s, i) by { assert Act(s, i).th[i] != s.th[i]; }
    } else {
      forall i | 0 <= i < s.n ensures s.th[i].pc.Out? && s.th[i].left == g + 1 { assert InRound(s.th[i], g + 1); }
    }
  }

  /** Thread `i` is inside, and its next access is not one more look at a closed ticket. */
  ghost predicate Moves(s: State, i: nat) {
    WellFormed(s) && i < s.n && !s.th[i].pc.Out? && Act(s, i) != s
  }

  /** The state after `sched`, all of whose steps are moves. */
  ghost function Then(s: State, sched: seq<nat>): State
    requires AllMove(s, sched)
    decreases |sched|
  {
    if sched == [] then s else Then(Act(s, sched[0]), sched[1..])
  }

  ghost predicate AllMove(s: State, sched: seq<nat>)
    decreases |sched|
  {
    sched == [] || (Moves(s, sched[0]) && AllMove(Act(s, sched[0]), sched[1..]))
  }

  lemma {:induction false} TogetherRun(s: State, g: nat, sched: seq<nat>)
    requires Together(s, g) && WellFormed(s) && AllMove(s, sched)
    ensures var e := Then(s, sched);
            Together(e, g) && WellFormed(e) && e.n == s.n && |sched| + Work(e.th) <= Work(s.th)
    decreases |sched|
  {
    hide Together, Act;
    if sched != [] {
      TogetherStep(s, g, sched[0]);
      TogetherRun(Act(s, sched[0]), g, sched[1..]);
    }
  }

  /**
   Every round ends.  Once all threads are in round `g`, whatever the interleaving, those
   inside make at most 6n moves, and as long as not all of them have left there is a move.
   */
  lemma {:induction false} RoundEnds(n: nat, before: seq<nat>, g: nat, sched: seq<nat>)
    requires n >= 1 && forall k | 0 <= k < |before| :: before[k] < n
    requires forall i | 0 <= i < n :: !Run(n, before).th[i].pc.Out? && Run(n, before).th[i].left == g
    requires AllMove(Run(n, before), sched)
    ensures |sched| <= 6 * n
    ensures var e := Then(Run(n, before), sched);
            && |e.th| == n
            && ((forall i | 0 <= i < n :: e.th[i].pc.Out? && e.th[i].left == g + 1) || exists i: nat :: Moves(e, i))
  {
    var s := Run(n, before);
    GatheredIsTogether(s, g);
    TogetherRun(s, g, sched);
    WorkBound(s.th);
    TogetherMoves(Then(s, sched), g);
  }

  lemma {:induction false} GatheredIsTogether(s: State, g: nat)
    requires Inv(s) && |s.th| == s.n && forall i | 0 <= i < s.n :: !s.th[i].pc.Out? && s.th[i].left == g
    ensures Together(s, g) && WellFormed(s)
  {
    if h: nat :| Filling(s, h) {
      assert InRound(s.th[0], h);
      forall i | 0 <= i < s.n ensures h == g || (h == g + 1 && s.th[i].pc.Spinning?) { assert InRound(s.th[i], h); }
    } else {
      var h: nat, l: nat :| Closing(s, h, l);
    }
  }
}
