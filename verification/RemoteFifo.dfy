/**
 The remote FIFO of kernel/kern/remote_fifo.c: any number of writers serialised
 by the ticket lock of kernel/kern/mcs_sync.c, and one reader.  One action is one
 shared access.  `served`, `line`, `puts`, `gets`, `asked` and `log` record history
 only: how many tickets were served, who holds or awaits the lock in ticket order, the
 items published and released so far, what each writer called put with, and the answers
 given.  `full` records whether the ring was full at the deciding read of a put.
 */
module RemoteFifo {
  import opened ModArith
  import opened Words    // counters are 32 bits wide

  datatype Error = Done | Again

  datatype Answer<T> = Answer(writer: nat, item: T, err: Error, full: bool)

  /** Where a writer is inside remote_fifo_put. */
  datatype Writer<T> =
    | Idle
    | Waiting(item: T, mine: nat)   // spinning in mcs_lock_remote on ticket `mine`
    | Locked(item: T)
    | ReadW(item: T, w: nat)
    | ReadR(item: T, w: nat, r: nat, full: bool)
    | Writing(item: T, w: nat)      // inside item_set
    | Publishing(item: T, w: nat)
    | Unlocking(item: T, err: Error, full: bool)
    | Storing(item: T, err: Error, full: bool, next: nat)

  /** Where the reader is between remote_fifo_get and remote_fifo_release. */
  datatype Reader<T> = Away | ReadOwn(r: nat) | Holding(r: nat) | Copied(item: T)

  datatype State<T> = State(
    slots: seq<T>, wridx: nat, rdidx: nat, cntr: nat, ticket: nat,
    wr: seq<Writer<T>>, rd: Reader<T>,
    served: nat, line: seq<nat>, puts: seq<T>, gets: seq<T>, asked: seq<seq<T>>, log: seq<Answer<T>>)

  datatype Action<T> =
    | Call(i: nat, item: T)   // writer i enters remote_fifo_put and draws its ticket
    | Write(i: nat)           // the next access of writer i
    | Torn(i: nat, junk: T)   // part of the copy of writer i reaches the slot
    | Read                    // the next access of the reader

  function Cap<T>(s: State<T>): int { |s.slots| - 1 }

  /** What the FIFO stands for: the items put and not yet released. */
  function Abs<T>(s: State<T>): seq<T>
    requires |s.gets| <= |s.puts|
  {
    s.puts[|s.gets|..]
  }

  // ----- The accesses -----

  predicate Shape<T>(s: State<T>) {
    && |s.slots| > 0 && s.wridx < |s.slots| && s.rdidx < |s.slots|
    && (forall i | 0 <= i < |s.wr| ::
          s.wr[i].ReadW? || s.wr[i].ReadR? || s.wr[i].Writing? || s.wr[i].Publishing? ==> s.wr[i].w < |s.slots|)
    && (s.rd.ReadOwn? || s.rd.Holding? ==> s.rd.r < |s.slots|)
  }

  function Act<T>(s: State<T>, a: Action<T>): State<T>
    requires Shape(s)
  {
    match a
    case Call(i, item) =>
      if i < |s.wr| && s.wr[i].Idle? then
        s.(ticket := (s.ticket + 1) % WORD, line := s.line + [i], wr := s.wr[i := Waiting(item, s.ticket)],
           asked := if i < |s.asked| then s.asked[i := s.asked[i] + [item]] else s.asked)
      else s
    case Write(i) => if i < |s.wr| then ActWriter(s, i) else s
    case Torn(i, junk) =>
      if i < |s.wr| && s.wr[i].Writing? then s.(slots := s.slots[s.wr[i].w := junk]) else s
    case Read => ActReader(s)
  }

  function ActWriter<T>(s: State<T>, i: nat): State<T>
    requires Shape(s) && i < |s.wr|
  {
    var n := |s.slots|;
    match s.wr[i]
    case Idle => s
    case Waiting(item, mine) => if mine == s.cntr then s.(wr := s.wr[i := Locked(item)]) else s
    case Locked(item) => s.(wr := s.wr[i := ReadW(item, s.wridx)])
    case ReadW(item, w) => s.(wr := s.wr[i := ReadR(item, w, s.rdidx, |s.puts| == |s.gets| + n - 1)])
    case ReadR(item, w, r, full) =>
      s.(wr := s.wr[i := if (w + 1) % n == r then Unlocking(item, Again, full) else Writing(item, w)])
    case Writing(item, w) => s.(slots := s.slots[w := item], wr := s.wr[i := Publishing(item, w)])
    case Publishing(item, w) =>
      s.(wridx := (w + 1) % n, puts := s.puts + [item], wr := s.wr[i := Unlocking(item, Done, false)])
    case Unlocking(item, err, full) => s.(wr := s.wr[i := Storing(item, err, full, (s.cntr + 1) % WORD)])
    case Storing(item, err, full, next) =>
      s.(cntr := next, wr := s.wr[i := Idle], served := s.served + 1,
         line := if s.line == [] then [] else s.line[1..], log := s.log + [Answer(i, item, err, full)])
  }

  function ActReader<T>(s: State<T>): State<T>
    requires Shape(s)
  {
    match s.rd
    case Away => s.(rd := ReadOwn(s.rdidx))
    case ReadOwn(r) => s.(rd := if r == s.wridx then Away else Holding(r))
    case Holding(r) => s.(rd := Copied(s.slots[r]))
    case Copied(item) => s.(rdidx := (s.rdidx + 1) % |s.slots|, gets := s.gets + [item], rd := Away)
  }

  // ----- The invariant -----

  predicate Contending<T>(w: Writer<T>) { !w.Idle? }

  predicate Inside<T>(w: Writer<T>) { !w.Idle? && !w.Waiting? }

  /** Writer `i` is at position `j` of the line; only the head may be inside. */
  predicate Place<T>(wr: seq<Writer<T>>, served: nat, i: nat, j: nat) {
    && i < |wr| && Contending(wr[i])
    && (wr[i].Waiting? ==> wr[i].mine == (served + j) % WORD)
    && (j > 0 ==> wr[i].Waiting?)
  }

  /** The ticket lock: the contenders stand in one line and hold consecutive tickets. */
  ghost predicate LockInv<T>(cntr: nat, ticket: nat, served: nat, line: seq<nat>, wr: seq<Writer<T>>) {
    && cntr == served % WORD && ticket == (served + |line|) % WORD
    && (forall j | 0 <= j < |line| :: Place(wr, served, line[j], j))
    && (forall j, k | 0 <= j < k < |line| :: line[j] != line[k])
    && (forall i | 0 <= i < |wr| && Contending(wr[i]) :: i in line)
  }

  function SlotOf<T>(slots: seq<T>, k: nat): T
    requires |slots| > 0
  {
    slots[k % |slots|]
  }

  /** The ring: slot k mod n keeps item number k from its publication to its release. */
  ghost predicate RingInv<T>(slots: seq<T>, wridx: nat, rdidx: nat, puts: seq<T>, gets: seq<T>) {
    && |slots| > 0 && |gets| <= |puts| <= |gets| + |slots| - 1
    && wridx == |puts| % |slots| && rdidx == |gets| % |slots|
    && (forall k | |gets| <= k < |puts| :: SlotOf(slots, k) == puts[k])
    && gets == puts[..|gets|]
  }

  /** What the locals of the writer inside stand for. */
  ghost predicate WriterInv<T>(slots: seq<T>, wridx: nat, puts: seq<T>, gets: nat, served: nat, w: Writer<T>)
    requires |slots| > 0
  {
    && (w.ReadW? || w.ReadR? || w.Writing? || w.Publishing? ==> w.w == wridx)
    && (w.ReadR? ==> ((w.w + 1) % |slots| == w.r <==> w.full) && (!w.full ==> |puts| < gets + |slots| - 1))
    && (w.Unlocking? || w.Storing? ==> (w.err.Again? <==> w.full))
    && (w.Writing? || w.Publishing? ==> |puts| < gets + |slots| - 1)
    && (w.Publishing? ==> SlotOf(slots, |puts|) == w.item)
    && (w.Storing? ==> w.next == (served + 1) % WORD)
  }

  ghost predicate ReaderInv<T>(rdidx: nat, puts: seq<T>, gets: seq<T>, rd: Reader<T>) {
    && (rd.ReadOwn? || rd.Holding? ==> rd.r == rdidx)
    && (rd.Holding? || rd.Copied? ==> |gets| < |puts|)
    && (rd.Copied? ==> rd.item == puts[|gets|])
  }

  ghost predicate Lock<T>(s: State<T>) { LockInv(s.cntr, s.ticket, s.served, s.line, s.wr) }

  ghost predicate Ring<T>(s: State<T>) { RingInv(s.slots, s.wridx, s.rdidx, s.puts, s.gets) }

  ghost predicate Local<T>(s: State<T>, w: Writer<T>)
    requires |s.slots| > 0
  {
    WriterInv(s.slots, s.wridx, s.puts, |s.gets|, s.served, w)
  }

  ghost predicate Machine<T>(s: State<T>) {
    && |s.wr| < WORD && Lock(s) && Ring(s) && ReaderInv(s.rdidx, s.puts, s.gets, s.rd)
    && (forall i | 0 <= i < |s.wr| && Inside(s.wr[i]) :: Local(s, s.wr[i]))
  }

  lemma {:induction false} LineBound<T>(s: State<T>)
    requires Lock(s)
    ensures |s.line| <= |s.wr|
  {
    DistinctBelow(s.line, |s.wr|);
  }

  /** Distinct numbers below `n` are at most `n` many. */
  lemma {:induction false} DistinctBelow(q: seq<nat>, n: nat)
    requires forall j | 0 <= j < |q| :: q[j] < n
    requires forall j, k | 0 <= j < k < |q| :: q[j] != q[k]
    ensures |q| <= n
  {
    assert |q| > 0 ==> q[0] < n;
    if n > 0 {
      if k :| 0 <= k < |q| && q[k] == n - 1 {
        DistinctBelow(q[..k] + q[k+1..], n - 1);
      } else {
        DistinctBelow(q, n - 1);
      }
    }
  }

  /** Mutual exclusion: a writer past the lock is the head of the line. */
  lemma {:induction false} InsideIsHead<T>(s: State<T>, i: nat)
    requires Lock(s) && i < |s.wr| && Inside(s.wr[i])
    ensures |s.line| > 0 && s.line[0] == i
  {
    var j :| 0 <= j < |s.line| && s.line[j] == i;
  }

  /** Only the head of the line sees its own ticket, although tickets wrap. */
  lemma {:induction false} HeadEnters<T>(s: State<T>, i: nat)
    requires Lock(s) && |s.wr| < WORD && i < |s.wr| && s.wr[i].Waiting? && s.wr[i].mine == s.cntr
    ensures |s.line| > 0 && s.line[0] == i
  {
    LineBound(s);
    var j :| 0 <= j < |s.line| && s.line[j] == i;
    if j > 0 {
      ModDistinct(s.served, s.served + j, WORD);
    }
  }

  lemma {:induction false} LockAfterCall<T>(s: State<T>, i: nat, item: T)
    requires Lock(s) && Shape(s) && i < |s.wr| && s.wr[i].Idle?
    ensures Lock(Act(s, Call(i, item)))
  {
    var s' := Act(s, Call(i, item));
    ModSucc(s.served + |s.line|, WORD);
    assert forall j | 0 <= j < |s.line| :: s'.line[j] == s.line[j] && s'.line[j] != i;
    assert s'.line[|s.line|] == i;
    forall k | 0 <= k < |s'.wr| && Contending(s'.wr[k]) ensures k in s'.line {
      if k != i { assert k in s.line; }
    }
  }

  lemma {:induction false} CallStep<T>(s: State<T>, i: nat, item: T)
    requires Machine(s) && Shape(s) && i < |s.wr| && s.wr[i].Idle?
    ensures Machine(Act(s, Call(i, item)))
  {
    var s' := Act(s, Call(i, item));
    LockAfterCall(s, i, item);
    forall k | 0 <= k < |s'.wr| && Inside(s'.wr[k]) ensures Local(s', s'.wr[k]) {
      assert Local(s, s.wr[k]);
    }
  }

  lemma {:induction false} EnterStep<T>(s: State<T>, i: nat)
    requires Machine(s) && Shape(s) && i < |s.wr| && s.wr[i].Waiting?
    ensures Machine(Act(s, Write(i)))
  {
    var s' := Act(s, Write(i));
    if s.wr[i].mine == s.cntr {
      HeadEnters(s, i);
      assert forall j | 0 < j < |s.line| :: s.line[j] != i;
      assert Lock(s');
    }
    forall k | 0 <= k < |s'.wr| && Inside(s'.wr[k]) ensures Local(s', s'.wr[k]) {
      if k != i { assert Local(s, s.wr[k]); }
    }
  }

  /** Accesses under the lock that leave the writer inside keep the line as it is. */
  lemma {:induction false} LockKept<T>(s: State<T>, s': State<T>, i: nat)
    requires Lock(s) && i < |s.wr| == |s'.wr| && Inside(s.wr[i]) && Inside(s'.wr[i])
    requires s'.wr == s.wr[i := s'.wr[i]]
    requires s'.cntr == s.cntr && s'.ticket == s.ticket && s'.served == s.served && s'.line == s.line
    ensures Lock(s')
    ensures forall k | 0 <= k < |s'.wr| && Inside(s'.wr[k]) :: k == i
  {
    InsideIsHead(s, i);
    forall k | 0 <= k < |s'.wr| && Inside(s'.wr[k]) ensures k == i {
      if k != i { InsideIsHead(s, k); }
    }
  }

  /** The ring is full exactly when the next write index meets the read index. */
  lemma {:induction false} FullTest<T>(s: State<T>)
    requires Ring(s)
    ensures (s.wridx + 1) % |s.slots| == s.rdidx <==> |Abs(s)| == Cap(s)
    ensures s.wridx == s.rdidx <==> |Abs(s)| == 0
  {
    var n, p, g := |s.slots|, |s.puts|, |s.gets|;
    ModSucc(p, n);
    if p + 1 - g == n {
      ModSame(g, n);
    } else {
      ModDistinct(g, p + 1, n);
    }
    if p > g { ModDistinct(g, p, n); }
  }

  lemma {:induction false} InnerStep<T>(s: State<T>, i: nat)
    requires Machine(s) && Shape(s) && i < |s.wr| && Inside(s.wr[i])
    requires !s.wr[i].Storing? && !s.wr[i].Writing? && !s.wr[i].Publishing?
    ensures Machine(Act(s, Write(i)))
  {
    var s' := Act(s, Write(i));
    LockKept(s, s', i);
    FullTest(s);
    ModSucc(s.served, WORD);
    assert Ring(s');
  }

  /** A write into the slot after the last item disturbs no item. */
  lemma {:induction false} FreeSlot<T>(s: State<T>, x: T, k: nat)
    requires Ring(s) && |s.gets| <= k < |s.puts| < |s.gets| + Cap(s)
    ensures s.slots[s.wridx := x][k % |s.slots|] == SlotOf(s.slots, k)
  {
    ModDistinct(k, |s.puts|, |s.slots|);
  }

  lemma {:induction false} WritingStep<T>(s: State<T>, i: nat, x: T)
    requires Machine(s) && Shape(s) && i < |s.wr| && s.wr[i].Writing?
    ensures Machine(Act(s, Write(i))) && Machine(Act(s, Torn(i, x)))
  {
    var s' := Act(s, Write(i));
    LockKept(s, s', i);
    forall k | |s.gets| <= k < |s.puts| ensures SlotOf(s'.slots, k) == s.puts[k] {
      FreeSlot(s, s.wr[i].item, k);
    }
    assert Ring(s');
    var u := Act(s, Torn(i, x));
    LockKept(s, u, i);
    forall k | |s.gets| <= k < |s.puts| ensures SlotOf(u.slots, k) == s.puts[k] {
      FreeSlot(s, x, k);
    }
    assert Ring(u);
  }

  lemma {:induction false} PublishStep<T>(s: State<T>, i: nat)
    requires Machine(s) && Shape(s) && i < |s.wr| && s.wr[i].Publishing?
    ensures Machine(Act(s, Write(i)))
  {
    var s' := Act(s, Write(i));
    LockKept(s, s', i);
    ModSucc(|s.puts|, |s.slots|);
    forall k | |s'.gets| <= k < |s'.puts| ensures SlotOf(s'.slots, k) == s'.puts[k] {
      assert SlotOf(s'.slots, k) == SlotOf(s.slots, k);
    }
    assert s'.gets == s'.puts[..|s'.gets|];
    assert Ring(s');
  }

  lemma {:induction false} LockAfterLeave<T>(s: State<T>, i: nat)
    requires Lock(s) && Shape(s) && i < |s.wr| && s.wr[i].Storing? && Local(s, s.wr[i])
    ensures Lock(Act(s, Write(i)))
    ensures forall k | 0 <= k < |s.wr| :: !Inside(Act(s, Write(i)).wr[k])
  {
    var s' := Act(s, Write(i));
    InsideIsHead(s, i);
    assert forall j | 0 <= j < |s'.line| :: s'.line[j] == s.line[j+1] && s'.line[j] != i;
    forall k | 0 <= k < |s'.wr| && Contending(s'.wr[k]) ensures k in s'.line {
      var j :| 0 <= j < |s.line| && s.line[j] == k;
      assert s'.line[j-1] == k;
    }
    forall k | 0 <= k < |s'.wr| ensures !Inside(s'.wr[k]) {
      if Inside(s.wr[k]) { InsideIsHead(s, k); }
    }
  }

  lemma {:induction false} LeaveStep<T>(s: State<T>, i: nat)
    requires Machine(s) && Shape(s) && i < |s.wr| && s.wr[i].Storing?
    ensures Machine(Act(s, Write(i)))
  {
    LockAfterLeave(s, i);
  }

  lemma {:induction false} RingAfterRead<T>(s: State<T>)
    requires Ring(s) && ReaderInv(s.rdidx, s.puts, s.gets, s.rd) && Shape(s)
    ensures Ring(Act(s, Read)) && (var s' := Act(s, Read); ReaderInv(s'.rdidx, s'.puts, s'.gets, s'.rd))
  {
    var s' := Act(s, Read);
    FullTest(s);
    assert forall k | |s'.gets| <= k < |s'.puts| :: SlotOf(s'.slots, k) == SlotOf(s.slots, k);
    if s.rd.Copied? {
      ModSucc(|s.gets|, |s.slots|);
      assert s'.gets == s'.puts[..|s'.gets|];
    }
    if s.rd.Holding? {
      assert s'.rd.item == SlotOf(s.slots, |s.gets|);
    }
  }

  lemma {:induction false} ReaderStep<T>(s: State<T>)
    requires Machine(s) && Shape(s)
    ensures Machine(Act(s, Read))
  {
    var s' := Act(s, Read);
    RingAfterRead(s);
    assert Lock(s');
    forall k | 0 <= k < |s'.wr| && Inside(s'.wr[k]) ensures Local(s', s'.wr[k]) {
      assert Local(s, s.wr[k]);
    }
  }

  lemma {:induction false} InvShape<T>(s: State<T>)
    requires Machine(s)
    ensures Shape(s)
  {
    forall i | 0 <= i < |s.wr| && Inside(s.wr[i]) ensures Local(s, s.wr[i]) {}
  }

  lemma {:induction false} MachineStep<T>(s: State<T>, a: Action<T>)
    requires Machine(s)
    ensures Shape(s) && Machine(Act(s, a)) && |Act(s, a).wr| == |s.wr| && |Act(s, a).slots| == |s.slots|
  {
    InvShape(s);
    match a
    case Call(i, item) => if i < |s.wr| && s.wr[i].Idle? { CallStep(s, i, item); }
    case Torn(i, junk) => if i < |s.wr| && s.wr[i].Writing? { WritingStep(s, i, junk); }
    case Read => ReaderStep(s);
    case Write(i) =>
      if i < |s.wr| {
        match s.wr[i]
        case Idle =>
        case Waiting(_, _) => EnterStep(s, i);
        case Writing(item, _) => WritingStep(s, i, item);
        case Publishing(_, _) => PublishStep(s, i);
        case Storing(_, _, _, _) => LeaveStep(s, i);
        case _ => InnerStep(s, i);
      }
  }

  // ----- The answers -----

  /** The items answered with success, in order. */
  function Accepted<T>(log: seq<Answer<T>>): seq<T> {
    if log == [] then []
    else
      var a := log[|log| - 1];
      Accepted(log[..|log| - 1]) + if a.err.Done? then [a.item] else []
  }

  /** The items for which writer `i` got an answer, in order. */
  function Told<T>(log: seq<Answer<T>>, i: nat): seq<T> {
    if log == [] then []
    else
      var a := log[|log| - 1];
      Told(log[..|log| - 1], i) + if a.writer == i then [a.item] else []
  }

  lemma {:induction false} LogGrows<T>(log: seq<Answer<T>>, a: Answer<T>, i: nat)
    ensures Accepted(log + [a]) == Accepted(log) + if a.err.Done? then [a.item] else []
    ensures Told(log + [a], i) == Told(log, i) + if a.writer == i then [a.item] else []
  {
    assert (log + [a])[..|log|] == log;
  }

  /** What a writer has published without having said so yet. */
  function Owed<T>(w: Writer<T>): seq<T> {
    if (w.Unlocking? || w.Storing?) && w.err.Done? then [w.item] else []
  }

  ghost predicate PutsInv<T>(puts: seq<T>, log: seq<Answer<T>>, wr: seq<Writer<T>>) {
    && (forall i | 0 <= i < |wr| && Inside(wr[i]) :: puts == Accepted(log) + Owed(wr[i]))
    && ((forall i | 0 <= i < |wr| :: !Inside(wr[i])) ==> puts == Accepted(log))
  }

  /** Every call is answered once, for its own item, or is under way. */
  ghost predicate AskInv<T>(asked: seq<T>, log: seq<Answer<T>>, i: nat, w: Writer<T>) {
    asked == Told(log, i) + if w.Idle? then [] else [w.item]
  }

  ghost predicate Books<T>(s: State<T>) {
    && PutsInv(s.puts, s.log, s.wr)
    && |s.asked| == |s.wr| && (forall i | 0 <= i < |s.wr| :: AskInv(s.asked[i], s.log, i, s.wr[i]))
    && forall k | 0 <= k < |s.log| :: s.log[k].err.Again? <==> s.log[k].full
  }

  ghost predicate Inv<T>(s: State<T>) { Machine(s) && Books(s) }

  /** With somebody about to enter, nobody is inside. */
  lemma {:induction false} NobodyInside<T>(s: State<T>, i: nat)
    requires Machine(s) && i < |s.wr| && s.wr[i].Waiting? && s.wr[i].mine == s.cntr
    ensures forall k | 0 <= k < |s.wr| :: !Inside(s.wr[k])
  {
    HeadEnters(s, i);
    forall k | 0 <= k < |s.wr| ensures !Inside(s.wr[k]) {
      if Inside(s.wr[k]) { InsideIsHead(s, k); }
    }
  }

  /** The writer inside is alone. */
  lemma {:induction false} AloneInside<T>(s: State<T>, i: nat)
    requires Machine(s) && i < |s.wr| && Inside(s.wr[i])
    ensures forall k | 0 <= k < |s.wr| && k != i :: !Inside(s.wr[k])
  {
    InsideIsHead(s, i);
    forall k | 0 <= k < |s.wr| && k != i ensures !Inside(s.wr[k]) {
      if Inside(s.wr[k]) { InsideIsHead(s, k); }
    }
  }

  lemma {:induction false} PutsAlone<T>(puts: seq<T>, log: seq<Answer<T>>, wr: seq<Writer<T>>, i: nat)
    requires i < |wr| && (forall k | 0 <= k < |wr| && k != i :: !Inside(wr[k]))
    requires puts == Accepted(log) + if Inside(wr[i]) then Owed(wr[i]) else []
    ensures PutsInv(puts, log, wr)
  {
    assert Accepted(log) + [] == Accepted(log);
  }

  /** What one access of a writer does to the puts and to what it owes. */
  lemma {:induction false} WriterOwes<T>(s: State<T>, i: nat)
    requires Shape(s) && i < |s.wr|
    ensures var s' := ActWriter(s, i);
            var w := s.wr[i];
            && |s'.wr| == |s.wr|
            && (w.Idle? || (w.Waiting? && w.mine != s.cntr) ==> s' == s)
            && (w.Waiting? && w.mine == s.cntr ==> s'.puts == s.puts && Inside(s'.wr[i]) && Owed(s'.wr[i]) == [])
            && (w.Storing? ==> s'.puts == s.puts && s'.wr[i].Idle?)
            && (Inside(w) && !w.Storing? ==>
                  Inside(s'.wr[i]) && (if s'.puts == s.puts then Owed(s'.wr[i]) == Owed(w)
                                       else Owed(w) == [] && s'.puts == s.puts + Owed(s'.wr[i])))
  {
  }

  lemma {:induction false} PutsStep<T>(s: State<T>, i: nat)
    requires Machine(s) && Shape(s) && PutsInv(s.puts, s.log, s.wr) && i < |s.wr|
    ensures var s' := ActWriter(s, i); PutsInv(s'.puts, s'.log, s'.wr)
  {
    var s' := ActWriter(s, i);
    WriterFrame(s, i);
    WriterOwes(s, i);
    hide ActWriter, Shape;
    if s.wr[i].Waiting? && s.wr[i].mine == s.cntr {
      NobodyInside(s, i);
      hide Machine;
      PutsAlone(s'.puts, s'.log, s'.wr, i);
    } else if Inside(s.wr[i]) {
      AloneInside(s, i);
      hide Machine;
      assert s.puts == Accepted(s.log) + Owed(s.wr[i]);
      if s.wr[i].Storing? { LogGrows(s.log, Answer(i, s.wr[i].item, s.wr[i].err, s.wr[i].full), i); }
      PutsAlone(s'.puts, s'.log, s'.wr, i);
    }
  }

  /** Accesses of others than a writer leave the writers inside as they are. */
  lemma {:induction false} OtherPuts<T>(s: State<T>, a: Action<T>)
    requires Shape(s) && PutsInv(s.puts, s.log, s.wr) && !a.Write?
    ensures var s' := Act(s, a); PutsInv(s'.puts, s'.log, s'.wr) && s'.log == s.log && |s'.wr| == |s.wr|
  {
    hide Accepted, Owed;
    var s' := Act(s, a);
    assert s'.puts == s.puts && s'.log == s.log && |s'.wr| == |s.wr|;
    assert forall k | 0 <= k < |s.wr| :: Inside(s'.wr[k]) <==> Inside(s.wr[k]);
    assert forall k | 0 <= k < |s.wr| && Inside(s.wr[k]) :: s'.wr[k] == s.wr[k];
    hide Act, Shape;
  }

  /** What one access of a writer leaves alone, and what it answers. */
  lemma {:induction false} WriterFrame<T>(s: State<T>, i: nat)
    requires Shape(s) && i < |s.wr|
    ensures var s' := ActWriter(s, i);
            var w := s.wr[i];
            && s'.asked == s.asked && |s'.wr| == |s.wr| && (forall k | 0 <= k < |s.wr| && k != i :: s'.wr[k] == s.wr[k])
            && (w.Storing? ==> s'.wr[i].Idle? && s'.log == s.log + [Answer(i, w.item, w.err, w.full)])
            && (!w.Storing? ==> s'.log == s.log && (s'.wr[i].Idle? <==> w.Idle?))
            && (!w.Storing? && !w.Idle? ==> s'.wr[i].item == w.item)
  {
  }

  lemma {:induction false} AskWrite<T>(s: State<T>, i: nat, k: nat)
    requires Shape(s) && i < |s.wr| && k < |s.wr| == |s.asked| && AskInv(s.asked[k], s.log, k, s.wr[k])
    ensures var s' := ActWriter(s, i);
            |s'.wr| == |s'.asked| == |s.wr| && AskInv(s'.asked[k], s'.log, k, s'.wr[k])
  {
    WriterFrame(s, i);
    hide ActWriter, Shape;
    var w := s.wr[i];
    if w.Storing? { LogGrows(s.log, Answer(i, w.item, w.err, w.full), k); }
  }

  lemma {:induction false} AskOther<T>(s: State<T>, a: Action<T>, k: nat)
    requires Shape(s) && !a.Write? && k < |s.wr| == |s.asked| && AskInv(s.asked[k], s.log, k, s.wr[k])
    ensures var s' := Act(s, a);
            |s'.wr| == |s'.asked| == |s.wr| && AskInv(s'.asked[k], s'.log, k, s'.wr[k])
  {
  }

  lemma {:induction false} BooksWrite<T>(s: State<T>, i: nat)
    requires Machine(s) && Shape(s) && Books(s) && i < |s.wr|
    ensures Books(ActWriter(s, i))
  {
    PutsStep(s, i);
    WriterFrame(s, i);
    if s.wr[i].Storing? { assert Local(s, s.wr[i]); }
    var s' := ActWriter(s, i);
    assert PutsInv(s'.puts, s'.log, s'.wr);
    hide Machine, PutsInv, AskInv, ActWriter, Shape;
    forall k | 0 <= k < |s'.wr| ensures AskInv(s'.asked[k], s'.log, k, s'.wr[k]) { AskWrite(s, i, k); }
  }

  lemma {:induction false} BooksOther<T>(s: State<T>, a: Action<T>)
    requires Shape(s) && Books(s) && !a.Write?
    ensures Books(Act(s, a))
  {
    OtherPuts(s, a);
    var s' := Act(s, a);
    assert |s'.asked| == |s.asked|;
    hide PutsInv, AskInv, Act, Shape;
    forall k | 0 <= k < |s'.wr| ensures AskInv(s'.asked[k], s'.log, k, s'.wr[k]) { AskOther(s, a, k); }
  }

  lemma {:induction false} BooksStep<T>(s: State<T>, a: Action<T>)
    requires Machine(s) && Shape(s) && Books(s)
    ensures Books(Act(s, a))
  {
    hide Machine, Books, ActWriter;
    if !a.Write? { BooksOther(s, a); } else if a.i < |s.wr| { BooksWrite(s, a.i); }
  }

  lemma {:induction false} InvStep<T>(s: State<T>, a: Action<T>)
    requires Inv(s)
    ensures Shape(s) && Inv(Act(s, a)) && |Act(s, a).wr| == |s.wr| && |Act(s, a).slots| == |s.slots|
  {
    MachineStep(s, a);
    BooksStep(s, a);
  }

  // ----- Every execution -----

  /** remote_fifo_init, with `w` writers about to come. */
  function Init<T>(slots: seq<T>, w: nat): State<T> {
    State(slots, 0, 0, 0, 0, seq(w, i => Idle), Away, 0, [], [], [], seq(w, i => []), [])
  }

  lemma {:induction false} InitInv<T>(slots: seq<T>, w: nat)
    requires |slots| > 0 && w < WORD
    ensures Inv(Init(slots, w))
  {
    ModUnique(0, 0, 0, |slots|);
  }

  /** The state after any sequence of accesses of `w` writers and the reader. */
  ghost function Run<T>(slots: seq<T>, w: nat, acts: seq<Action<T>>): (s: State<T>)
    requires |slots| > 0 && w < WORD
    ensures Inv(s) && |s.wr| == w && |s.slots| == |slots|
    decreases |acts|
  {
    if acts == [] then
      InitInv(slots, w);
      Init(slots, w)
    else
      var s := Run(slots, w, acts[..|acts| - 1]);
      InvStep(s, acts[|acts| - 1]);
      Act(s, acts[|acts| - 1])
  }

  /** Items are released in the order they were published, each once, none lost. */
  lemma {:induction false} InOrderNoLoss<T>(slots: seq<T>, w: nat, acts: seq<Action<T>>)
    requires |slots| > 0 && w < WORD
    ensures var s := Run(slots, w, acts);
            && |s.gets| <= |s.puts| && s.puts == s.gets + Abs(s) && |Abs(s)| <= |slots| - 1
            && forall k | 0 <= k < |Abs(s)| :: Abs(s)[k] == SlotOf(s.slots, |s.gets| + k)
  {
    var s := Run(slots, w, acts);
    assert s.puts == s.puts[..|s.gets|] + s.puts[|s.gets|..];
    forall k | 0 <= k < |Abs(s)| ensures Abs(s)[k] == SlotOf(s.slots, |s.gets| + k) {
      assert SlotOf(s.slots, |s.gets| + k) == s.puts[|s.gets| + k];
    }
  }

  lemma {:induction false} QueueStep<T>(s: State<T>, a: Action<T>)
    requires Inv(s) && Shape(s)
    ensures var s' := Act(s, a);
            && |s.gets| <= |s.puts| && |s'.gets| <= |s'.puts|
            && (if a.Write? && a.i < |s.wr| && s.wr[a.i].Publishing? then
                  |Abs(s)| < Cap(s) && Abs(s') == Abs(s) + [s.wr[a.i].item]
                else if a.Read? && s.rd.Copied? then
                  |Abs(s)| > 0 && s.rd.item == Abs(s)[0] && Abs(s') == Abs(s)[1..]
                else Abs(s') == Abs(s))
  {
    hide Lock, SlotOf;
    if a.Write? && a.i < |s.wr| && s.wr[a.i].Publishing? {
      assert Local(s, s.wr[a.i]);
    }
  }

  /** Every access is a step of a bounded queue: one enqueue, one dequeue, or nothing. */
  lemma {:induction false} RefinesBoundedQueue<T>(slots: seq<T>, w: nat, acts: seq<Action<T>>, a: Action<T>)
    requires |slots| > 0 && w < WORD
    ensures var s, s' := Run(slots, w, acts), Run(slots, w, acts + [a]);
            && |s.gets| <= |s.puts| && |s'.gets| <= |s'.puts|
            && (if a.Write? && a.i < w && s.wr[a.i].Publishing? then
                  |Abs(s)| < |slots| - 1 && Abs(s') == Abs(s) + [s.wr[a.i].item]
                else if a.Read? && s.rd.Copied? then
                  |Abs(s)| > 0 && s.rd.item == Abs(s)[0] && Abs(s') == Abs(s)[1..]
                else Abs(s') == Abs(s))
  {
    hide Act, Inv;
    var s := Run(slots, w, acts);
    assert (acts + [a])[..|acts|] == acts;
    InvStep(s, a);
    QueueStep(s, a);
  }

  lemma {:induction false} RefusalsAt<T>(s: State<T>, i: nat)
    requires Inv(s) && i < |s.wr|
    ensures s.wr[i].ReadW? ==> ((s.wr[i].w + 1) % |s.slots| == s.rdidx <==> |Abs(s)| == Cap(s))
    ensures s.rd.ReadOwn? ==> (s.rd.r == s.wridx <==> |Abs(s)| == 0)
  {
    FullTest(s);
    if s.wr[i].ReadW? { assert Local(s, s.wr[i]); }
  }

  /**
   What put answers.  EAGAIN is answered exactly for the calls that read a full ring.
   The items published are those answered with success, in order, and at most that of
   the writer about to answer.  Every call gets one answer, for its own item, in turn.
   */
  lemma {:induction false} PutAnswersAreRight<T>(slots: seq<T>, w: nat, acts: seq<Action<T>>, i: nat)
    requires |slots| > 0 && w < WORD && i < w
    ensures var s := Run(slots, w, acts);
            && (forall k | 0 <= k < |s.log| :: s.log[k].err.Again? <==> s.log[k].full)
            && (s.puts == Accepted(s.log)
                || exists k :: 0 <= k < w && Owed(s.wr[k]) != [] && s.puts == Accepted(s.log) + Owed(s.wr[k]))
            && |s.asked| == w && s.asked[i] == Told(s.log, i) + if s.wr[i].Idle? then [] else [s.wr[i].item]
  {
    var s := Run(slots, w, acts);
    assert AskInv(s.asked[i], s.log, i, s.wr[i]);
    if k :| 0 <= k < w && Inside(s.wr[k]) {
      assert s.puts == Accepted(s.log) + Owed(s.wr[k]);
    }
  }

  /** The moment a put is decided: EAGAIN exactly if nothing was published, success exactly if its item was. */
  lemma {:induction false} PutDoesWhatItAnswers<T>(slots: seq<T>, w: nat, acts: seq<Action<T>>, i: nat)
    requires |slots| > 0 && w < WORD && i < w
    requires Run(slots, w, acts + [Write(i)]).wr[i].Unlocking? && !Run(slots, w, acts).wr[i].Unlocking?
    ensures var s, s' := Run(slots, w, acts), Run(slots, w, acts + [Write(i)]);
            && !s.wr[i].Idle? && s'.wr[i].item == s.wr[i].item
            && (s'.wr[i].err.Done? <==> s'.puts == s.puts + [s.wr[i].item])
            && (s'.wr[i].err.Again? <==> s'.puts == s.puts)
  {
    hide Act, Inv;
    assert (acts + [Write(i)])[..|acts|] == acts;
    InvStep(Run(slots, w, acts), Write(i));
    Decided(Run(slots, w, acts), i);
  }

  lemma {:induction false} Decided<T>(s: State<T>, i: nat)
    requires Shape(s) && i < |s.wr| && !s.wr[i].Unlocking? && Act(s, Write(i)).wr[i].Unlocking?
    ensures var s' := Act(s, Write(i));
            && !s.wr[i].Idle? && s'.wr[i].item == s.wr[i].item
            && (s'.wr[i].err.Done? <==> s'.puts == s.puts + [s.wr[i].item])
            && (s'.wr[i].err.Again? <==> s'.puts == s.puts)
  {
  }

  /** The deciding reads: put looks whether the ring is full, get whether it is empty, and both act on it. */
  lemma {:induction false} RefusalsAreRight<T>(slots: seq<T>, w: nat, acts: seq<Action<T>>, i: nat)
    requires |slots| > 0 && w < WORD && i < w
    ensures var s := Run(slots, w, acts);
            && |s.gets| <= |s.puts|
            && (s.wr[i].ReadW? ==>
                  var d := Run(slots, w, acts + [Write(i)] + [Write(i)]).wr[i];
                  if |Abs(s)| == |slots| - 1 then d.Unlocking? && d.err.Again? else d.Writing?)
            && (s.rd.ReadOwn? ==>
                  var d := Run(slots, w, acts + [Read]).rd;
                  if Abs(s) == [] then d.Away? else d.Holding?)
  {
    hide Act, Inv, Abs;
    var s := Run(slots, w, acts);
    assert (acts + [Write(i)])[..|acts|] == acts;
    assert (acts + [Write(i)] + [Write(i)])[..|acts| + 1] == acts + [Write(i)];
    assert (acts + [Read])[..|acts|] == acts;
    InvStep(s, Write(i));
    InvStep(Act(s, Write(i)), Write(i));
    PutDecides(s, i);
    GetDecides(s);
  }

  lemma {:induction false} PutDecides<T>(s: State<T>, i: nat)
    requires Inv(s) && Shape(s) && i < |s.wr|
    ensures |s.gets| <= |s.puts|
    ensures s.wr[i].ReadW? ==>
              var s' := Act(s, Write(i));
              Shape(s') && |s'.wr| == |s.wr| &&
              (var d := Act(s', Write(i)).wr[i];
               if |Abs(s)| == Cap(s) then d.Unlocking? && d.err.Again? else d.Writing?)
  {
    RefusalsAt(s, i);
    InvStep(s, Write(i));
    InvShape(Act(s, Write(i)));
    hide Inv, Shape;
  }

  lemma {:induction false} GetDecides<T>(s: State<T>)
    requires Inv(s) && Shape(s)
    ensures |s.gets| <= |s.puts|
    ensures s.rd.ReadOwn? ==> var d := Act(s, Read).rd; if Abs(s) == [] then d.Away? else d.Holding?
  {
    FullTest(s);
  }

  /** A slot handed out by get holds the oldest item until it is released. */
  lemma {:induction false} HeldSlotIsSafe<T>(slots: seq<T>, w: nat, acts: seq<Action<T>>, a: Action<T>)
    requires |slots| > 0 && w < WORD && Run(slots, w, acts).rd.Holding?
    ensures var s, s' := Run(slots, w, acts), Run(slots, w, acts + [a]);
            && s.rd.r < |slots| && |s.gets| < |s.puts| && s.slots[s.rd.r] == s.puts[|s.gets|]
            && s'.slots[s.rd.r] == s.slots[s.rd.r]
  {
    var s, s' := Run(slots, w, acts), Run(slots, w, acts + [a]);
    assert (acts + [a])[..|acts|] == acts;
    assert SlotOf(s.slots, |s.gets|) == s.puts[|s.gets|];
    if (a.Write? || a.Torn?) && a.i < w && s.wr[a.i].Writing? {
      assert Local(s, s.wr[a.i]);
      FreeSlot(s, if a.Torn? then a.junk else s.wr[a.i].item, |s.gets|);
    }
  }

  /** One writer at a time, in ticket order: the one inside drew its ticket first of all contenders. */
  lemma {:induction false} OneWriterInTicketOrder<T>(slots: seq<T>, w: nat, acts: seq<Action<T>>, i: nat, a: Action<T>)
    requires |slots| > 0 && w < WORD && i < w
    ensures var s, s' := Run(slots, w, acts), Run(slots, w, acts + [a]);
            && (Inside(s.wr[i]) ==> s.line != [] && s.line[0] == i)
            && (s'.line == s.line || (exists k :: s'.line == s.line + [k]) || (s.line != [] && s'.line == s.line[1..]))
            && (a == Write(i) && s.wr[i].Waiting? ==> s.line != [] && (Inside(s'.wr[i]) <==> s.line[0] == i))
  {
    hide Act, Inv;
    assert (acts + [a])[..|acts|] == acts;
    InvStep(Run(slots, w, acts), a);
    LineMoves(Run(slots, w, acts), i, a);
  }

  lemma {:induction false} LineMoves<T>(s: State<T>, i: nat, a: Action<T>)
    requires Inv(s) && Shape(s) && i < |s.wr|
    ensures var s' := Act(s, a);
            && |s'.wr| == |s.wr|
            && (Inside(s.wr[i]) ==> s.line != [] && s.line[0] == i)
            && (s'.line == s.line || (exists k :: s'.line == s.line + [k]) || (s.line != [] && s'.line == s.line[1..]))
            && (s.wr[i].Waiting? ==> s.line != [])
            && (a == Write(i) && s.wr[i].Waiting? ==> (Inside(s'.wr[i]) <==> s.line[0] == i))
  {
    hide Ring, ReaderInv, Local, Books;
    var s' := Act(s, a);
    if Inside(s.wr[i]) { InsideIsHead(s, i); }
    if s.wr[i].Waiting? {
      assert i in s.line;
      if s.wr[i].mine == s.cntr { HeadEnters(s, i); }
      if s.line[0] == i { assert Place(s.wr, s.served, s.line[0], 0); }
    }
    if a.Write? && a.i < |s.wr| && s.wr[a.i].Storing? { InsideIsHead(s, a.i); }
    if a.Call? && a.i < |s.wr| && s.wr[a.i].Idle? { assert s'.line == s.line + [a.i]; }
  }

  /** How many accesses a writer past the lock has left, at most. */
  function Rank<T>(w: Writer<T>): nat {
    match w
    case Idle => 0
    case Storing(_, _, _, _) => 1
    case Unlocking(_, _, _) => 2
    case Publishing(_, _) => 3
    case Writing(_, _) => 4
    case ReadR(_, _, _, _) => 5
    case ReadW(_, _) => 6
    case Locked(_) => 7
    case Waiting(_, _) => 8
  }

  /** A put ends: every access of the writer inside brings it nearer its answer, which is the last thing it does. */
  lemma {:induction false} PutEnds<T>(slots: seq<T>, w: nat, acts: seq<Action<T>>, i: nat)
    requires |slots| > 0 && w < WORD && i < w && Inside(Run(slots, w, acts).wr[i])
    ensures var s, s' := Run(slots, w, acts), Run(slots, w, acts + [Write(i)]);
            && Rank(s'.wr[i]) < Rank(s.wr[i]) <= 7
            && (s'.wr[i].Idle? <==> |s'.log| == |s.log| + 1)
            && (s'.wr[i].Idle? ==>
                  s.wr[i].Storing? && s'.log == s.log + [Answer(i, s.wr[i].item, s.wr[i].err, s.wr[i].full)])
  {
    hide Act, Inv;
    assert (acts + [Write(i)])[..|acts|] == acts;
    InvStep(Run(slots, w, acts), Write(i));
    StepsOn(Run(slots, w, acts), i);
  }

  lemma {:induction false} StepsOn<T>(s: State<T>, i: nat)
    requires Shape(s) && i < |s.wr| && Inside(s.wr[i])
    ensures var s' := Act(s, Write(i));
            && |s'.wr| == |s.wr| && Rank(s'.wr[i]) < Rank(s.wr[i]) <= 7
            && (s'.wr[i].Idle? <==> |s'.log| == |s.log| + 1)
            && (s'.wr[i].Idle? ==>
                  s.wr[i].Storing? && s'.log == s.log + [Answer(i, s.wr[i].item, s.wr[i].err, s.wr[i].full)])
  {
  }

  /** A get ends: with an item in the ring, four accesses of the reader release the oldest one. */
  lemma {:induction false} GetDelivers<T>(slots: seq<T>, w: nat, acts: seq<Action<T>>)
    requires |slots| > 0 && w < WORD && Run(slots, w, acts).rd.Away?
    ensures var s, s' := Run(slots, w, acts), Run(slots, w, acts + [Read] + [Read] + [Read] + [Read]);
            && |s.gets| <= |s.puts| && s'.puts == s.puts
            && (Abs(s) != [] ==> s'.gets == s.gets + [Abs(s)[0]] && s'.rd.Away?)
  {
    hide Act, Inv;
    var s, s1, s2 := Run(slots, w, acts), Run(slots, w, acts + [Read]), Run(slots, w, acts + [Read] + [Read]);
    var s3 := Run(slots, w, acts + [Read] + [Read] + [Read]);
    assert (acts + [Read])[..|acts|] == acts;
    assert (acts + [Read] + [Read])[..|acts| + 1] == acts + [Read];
    assert (acts + [Read] + [Read] + [Read])[..|acts| + 2] == acts + [Read] + [Read];
    assert (acts + [Read] + [Read] + [Read] + [Read])[..|acts| + 3] == acts + [Read] + [Read] + [Read];
    InvStep(s, Read);
    InvStep(s1, Read);
    InvStep(s2, Read);
    InvStep(s3, Read);
    ReadsOn(s);
    ReadsOn(s1);
    ReadsOn(s2);
    ReadsOn(s3);
  }

  /** One access of the reader. */
  lemma {:induction false} ReadsOn<T>(s: State<T>)
    requires Inv(s) && Shape(s)
    ensures var s' := Act(s, Read);
            && |s.gets| <= |s.puts| && s'.puts == s.puts
            && (s.rd.Away? ==> s'.rd.ReadOwn? && s'.gets == s.gets)
            && (s.rd.ReadOwn? ==> (s'.rd.Holding? <==> Abs(s) != []) && s'.gets == s.gets)
            && (s.rd.Holding? ==> s'.rd.Copied? && s'.gets == s.gets)
            && (s.rd.Copied? ==> Abs(s) != [] && s'.rd.Away? && s'.gets == s.gets + [Abs(s)[0]])
  {
    FullTest(s);
  }
}
