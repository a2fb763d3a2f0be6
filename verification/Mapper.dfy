/**
 The load-once protocol of mapper_get_page (kernel/mm/mapper.c): any number of
 threads ask for any indices of one mapper.  A body under m_lock is one action;
 allocation and readpage happen outside the lock and may fail.  A placeholder
 lives on the stack of the thread that loads, so it is named by that thread, and
 so is its wait queue.  Pages are numbered as they are loaded; `home` records the index
 each was loaded for, and `removed` the indices a page was ever removed from.
 */
module Mapper {

  datatype Item = Page(id: nat) | Placeholder(owner: nat)

  datatype Answer = Got(page: nat) | Null

  /** Where a thread is inside mapper_get_page. */
  datatype Pc =
    | Idle
    | Retry(ix: nat)                  // about to take the lock and look up
    | Loading(ix: nat)                // its placeholder is in, the lock is not held
    | Loaded(ix: nat, page: nat)      // about to replace the placeholder
    | Failed(ix: nat)                 // about to remove the placeholder
    | Sleeping(ix: nat, on: nat)      // queued on the placeholder of thread `on`
    | Returned(ix: nat, ans: Answer)

  datatype State = State(
    radix: map<nat, Item>, th: seq<Pc>, wq: seq<seq<nat>>, home: seq<nat>, removed: set<nat>)

  datatype Action =
    | Call(t: nat, ix: nat)
    | Enter(t: nat, inserted: bool)  // the locked body at the head of the loop; may a node be inserted?
    | Load(t: nat, ok: bool)         // kmem_alloc and readpage
    | Commit(t: nat)                 // the locked body that installs the page
    | Abort(t: nat)                  // the locked body after a failure
    | Remove(ix: nat)                // mapper_remove_page of a page in the mapper

  predicate Loads(p: Pc, ix: nat) {
    (p.Loading? || p.Loaded? || p.Failed?) && p.ix == ix
  }

  predicate IsLoader(p: Pc) { p.Loading? || p.Loaded? || p.Failed? }

  predicate Shape(s: State) {
    |s.wq| == |s.th|
  }

  /** wakeup_all: the queued threads go back to the head of their loop. */
  function WakeAll(th: seq<Pc>, q: seq<nat>): (th': seq<Pc>)
    ensures |th'| == |th|
    ensures forall k | 0 <= k < |th| ::
              th'[k] == if k in q && th[k].Sleeping? then Retry(th[k].ix) else th[k]
  {
    if q == [] then th
    else
      var u := WakeAll(th, q[..|q| - 1]);
      var k := q[|q| - 1];
      if k < |u| && u[k].Sleeping? then u[k := Retry(u[k].ix)] else u
  }

  function Act(s: State, a: Action): State
    requires Shape(s)
  {
    match a
    case Call(t, ix) =>
      if t < |s.th| && (s.th[t].Idle? || s.th[t].Returned?) then s.(th := s.th[t := Retry(ix)]) else s
    case Enter(t, inserted) => if t < |s.th| && s.th[t].Retry? then Lookup(s, t, s.th[t].ix, inserted) else s
    case Load(t, ok) =>
      if t < |s.th| && s.th[t].Loading? then
        if ok then s.(th := s.th[t := Loaded(s.th[t].ix, |s.home|)], home := s.home + [s.th[t].ix])
        else s.(th := s.th[t := Failed(s.th[t].ix)])
      else s
    case Commit(t) =>
      if t < |s.th| && s.th[t].Loaded? then
        var ix, page := s.th[t].ix, s.th[t].page;
        Wake(s.(radix := s.radix[ix := Page(page)], th := s.th[t := Returned(ix, Got(page))]), t)
      else s
    case Abort(t) =>
      if t < |s.th| && s.th[t].Failed? then
        var ix := s.th[t].ix;
        Wake(s.(radix := s.radix - {ix}, th := s.th[t := Returned(ix, Null)]), t)
      else s
    case Remove(ix) =>
      if ix in s.radix && s.radix[ix].Page? then
        s.(radix := s.radix - {ix}, removed := s.removed + {ix})
      else s
  }

  function Lookup(s: State, t: nat, ix: nat, inserted: bool): State
    requires Shape(s) && t < |s.th|
  {
    if ix !in s.radix then
      if inserted then s.(radix := s.radix[ix := Placeholder(t)], th := s.th[t := Loading(ix)])
      else s.(th := s.th[t := Returned(ix, Null)])
    else match s.radix[ix]
      case Page(p) => s.(th := s.th[t := Returned(ix, Got(p))])
      case Placeholder(o) =>
        if o < |s.wq| then
          s.(wq := s.wq[o := s.wq[o] + [t]], th := s.th[t := Sleeping(ix, o)])
        else s
  }

  function Wake(s: State, t: nat): State
    requires Shape(s) && t < |s.th|
  {
    s.(th := WakeAll(s.th, s.wq[t]), wq := s.wq[t := []])
  }

  // ----- The invariant -----

  /** A placeholder and the thread that loads through it name each other; a page is at the index it was loaded for. */
  predicate Owned(th: seq<Pc>, home: seq<nat>, ix: nat, item: Item) {
    match item
    case Placeholder(owner) => owner < |th| && Loads(th[owner], ix)
    case Page(id) => LoadedFor(home, id, ix)
  }

  /** Page `p` was loaded for index `ix`. */
  predicate LoadedFor(home: seq<nat>, p: nat, ix: nat) { p < |home| && home[p] == ix }

  /** Where the other tables stand for thread `t`. */
  predicate ThreadInv(radix: map<nat, Item>, wq: seq<seq<nat>>, home: seq<nat>, removed: set<nat>, t: nat, p: Pc) {
    && (IsLoader(p) ==> p.ix in radix && radix[p.ix] == Placeholder(t))
    && (p.Sleeping? ==> p.ix in radix && radix[p.ix] == Placeholder(p.on) && p.on < |wq| && t in wq[p.on])
    && (p.Loaded? ==> LoadedFor(home, p.page, p.ix))
    && (p.Returned? && p.ans.Got? ==> LoadedFor(home, p.ans.page, p.ix))
    && (p.Returned? && p.ans.Got? && p.ix !in removed ==> p.ix in radix && radix[p.ix] == Page(p.ans.page))
  }

  /** Who is queued on the placeholder of a thread: sleepers on it, each once; nobody if it loads nothing. */
  predicate QueueInv(th: seq<Pc>, q: seq<nat>, o: nat) {
    && (forall k | 0 <= k < |q| :: q[k] < |th| && th[q[k]].Sleeping? && th[q[k]].on == o)
    && (forall k, l | 0 <= k < l < |q| :: q[k] != q[l])
    && (q != [] ==> o < |th| && IsLoader(th[o]))
  }

  ghost predicate Inv(s: State) {
    && Shape(s)
    && (forall ix | ix in s.radix :: Owned(s.th, s.home, ix, s.radix[ix]))
    && (forall t | 0 <= t < |s.th| :: ThreadInv(s.radix, s.wq, s.home, s.removed, t, s.th[t]))
    && (forall o | 0 <= o < |s.wq| :: QueueInv(s.th, s.wq[o], o))
  }

  lemma {:induction false} MoveOne(s: State, t: nat, p: Pc)
    requires Inv(s) && t < |s.th|
    requires !IsLoader(s.th[t]) && !IsLoader(p) && !s.th[t].Sleeping? && !p.Sleeping?
    requires ThreadInv(s.radix, s.wq, s.home, s.removed, t, p)
    ensures Inv(s.(th := s.th[t := p]))
  {
    var s' := s.(th := s.th[t := p]);
    forall o | 0 <= o < |s'.wq| ensures QueueInv(s'.th, s'.wq[o], o) {
      assert QueueInv(s.th, s.wq[o], o);
    }
  }

  lemma {:induction false} InsertStep(s: State, t: nat, ix: nat)
    requires Inv(s) && t < |s.th| && s.th[t] == Retry(ix) && ix !in s.radix
    ensures Inv(s.(radix := s.radix[ix := Placeholder(t)], th := s.th[t := Loading(ix)]))
  {
    var s' := s.(radix := s.radix[ix := Placeholder(t)], th := s.th[t := Loading(ix)]);
    forall j | j in s'.radix ensures Owned(s'.th, s'.home, j, s'.radix[j]) {
      if j != ix { assert Owned(s.th, s.home, j, s.radix[j]); }
    }
    forall k | 0 <= k < |s'.th| ensures ThreadInv(s'.radix, s'.wq, s'.home, s'.removed, k, s'.th[k]) {
      assert ThreadInv(s.radix, s.wq, s.home, s.removed, k, s.th[k]);
    }
    forall o | 0 <= o < |s'.wq| ensures QueueInv(s'.th, s'.wq[o], o) {
      assert QueueInv(s.th, s.wq[o], o);
    }
  }

  lemma {:induction false} SleepStep(s: State, t: nat, ix: nat, o: nat)
    requires Inv(s) && t < |s.th| && s.th[t] == Retry(ix) && ix in s.radix && s.radix[ix] == Placeholder(o)
    requires o < |s.wq|
    ensures Inv(s.(wq := s.wq[o := s.wq[o] + [t]], th := s.th[t := Sleeping(ix, o)]))
  {
    var s' := s.(wq := s.wq[o := s.wq[o] + [t]], th := s.th[t := Sleeping(ix, o)]);
    assert Owned(s.th, s.home, ix, s.radix[ix]);
    forall j | j in s'.radix ensures Owned(s'.th, s'.home, j, s'.radix[j]) {
      assert Owned(s.th, s.home, j, s.radix[j]);
    }
    forall k | 0 <= k < |s'.th| ensures ThreadInv(s'.radix, s'.wq, s'.home, s'.removed, k, s'.th[k]) {
      assert ThreadInv(s.radix, s.wq, s.home, s.removed, k, s.th[k]);
      if k == t { assert s'.wq[o][|s.wq[o]|] == t; }
    }
    forall q | 0 <= q < |s'.wq| ensures QueueInv(s'.th, s'.wq[q], q) { SleepQueue(s, t, ix, o, q); }
  }

  lemma {:induction false} SleepQueue(s: State, t: nat, ix: nat, o: nat, q: nat)
    requires Shape(s) && t < |s.th| && s.th[t] == Retry(ix) && o < |s.wq| && o != t && IsLoader(s.th[o])
    requires q < |s.wq| && QueueInv(s.th, s.wq[q], q)
    ensures QueueInv(s.th[t := Sleeping(ix, o)], s.wq[o := s.wq[o] + [t]][q], q)
  {
    assert t !in s.wq[q];
  }

  lemma {:induction false} LoadStep(s: State, t: nat, ok: bool)
    requires Inv(s) && t < |s.th| && s.th[t].Loading?
    ensures Inv(Act(s, Load(t, ok)))
  {
    var s' := Act(s, Load(t, ok));
    forall j | j in s'.radix ensures Owned(s'.th, s'.home, j, s'.radix[j]) {
      assert Owned(s.th, s.home, j, s.radix[j]);
    }
    forall k | 0 <= k < |s'.th| ensures ThreadInv(s'.radix, s'.wq, s'.home, s'.removed, k, s'.th[k]) {
      assert ThreadInv(s.radix, s.wq, s.home, s.removed, k, s.th[k]);
    }
    forall q | 0 <= q < |s'.wq| ensures QueueInv(s'.th, s'.wq[q], q) {
      assert QueueInv(s.th, s.wq[q], q);
    }
  }

  /** The two ways a loader gives up its placeholder: a page takes its place, or nothing does. */
  lemma {:induction false} FinishStep(s: State, t: nat, radix: map<nat, Item>, ans: Answer)
    requires Inv(s) && t < |s.th| && IsLoader(s.th[t])
    requires var ix := s.th[t].ix;
             && (forall j | j in s.radix && j != ix :: j in radix && radix[j] == s.radix[j])
             && (forall j | j in radix && j != ix :: j in s.radix)
             && (ans.Got? ==> ix in radix && radix[ix] == Page(ans.page) && LoadedFor(s.home, ans.page, ix))
             && (ans.Null? ==> ix !in radix)
    ensures Inv(Wake(s.(radix := radix, th := s.th[t := Returned(s.th[t].ix, ans)]), t))
  {
    var ix := s.th[t].ix;
    var m := s.(radix := radix, th := s.th[t := Returned(ix, ans)]);
    var s' := Wake(m, t);
    assert ThreadInv(s.radix, s.wq, s.home, s.removed, t, s.th[t]);
    assert QueueInv(s.th, s.wq[t], t);
    forall k | 0 <= k < |s'.th| ensures ThreadInv(s'.radix, s'.wq, s'.home, s'.removed, k, s'.th[k]) {
      assert ThreadInv(s.radix, s.wq, s.home, s.removed, k, s.th[k]);
    }
    forall j | j in s'.radix ensures Owned(s'.th, s'.home, j, s'.radix[j]) {
      if j in s.radix { assert Owned(s.th, s.home, j, s.radix[j]); }
    }
    forall q | 0 <= q < |s'.wq| ensures QueueInv(s'.th, s'.wq[q], q) {
      assert QueueInv(s.th, s.wq[q], q);
    }
  }

  lemma {:induction false} RemoveStep(s: State, ix: nat)
    requires Inv(s) && ix in s.radix && s.radix[ix].Page?
    ensures Inv(Act(s, Remove(ix)))
  {
    var s' := Act(s, Remove(ix));
    forall j | j in s'.radix ensures Owned(s'.th, s'.home, j, s'.radix[j]) {
      assert Owned(s.th, s.home, j, s.radix[j]);
    }
    forall k | 0 <= k < |s'.th| ensures ThreadInv(s'.radix, s'.wq, s'.home, s'.removed, k, s'.th[k]) {
      assert ThreadInv(s.radix, s.wq, s.home, s.removed, k, s.th[k]);
    }
  }

  lemma {:induction false} InvStep(s: State, a: Action)
    requires Inv(s)
    ensures Inv(Act(s, a)) && |Act(s, a).th| == |s.th|
  {
    match a
    case Call(t, ix) =>
      if t < |s.th| && (s.th[t].Idle? || s.th[t].Returned?) { MoveOne(s, t, Retry(ix)); }
    case Enter(t, inserted) =>
      if t < |s.th| && s.th[t].Retry? {
        var ix := s.th[t].ix;
        if ix !in s.radix {
          if inserted { InsertStep(s, t, ix); } else { MoveOne(s, t, Returned(ix, Null)); }
        } else if s.radix[ix].Page? {
          assert Owned(s.th, s.home, ix, s.radix[ix]);
          MoveOne(s, t, Returned(ix, Got(s.radix[ix].id)));
        } else {
          assert Owned(s.th, s.home, ix, s.radix[ix]);
          SleepStep(s, t, ix, s.radix[ix].owner);
        }
      }
    case Load(t, ok) => if t < |s.th| && s.th[t].Loading? { LoadStep(s, t, ok); }
    case Commit(t) =>
      if t < |s.th| && s.th[t].Loaded? {
        var ix, page := s.th[t].ix, s.th[t].page;
        assert ThreadInv(s.radix, s.wq, s.home, s.removed, t, s.th[t]);
        FinishStep(s, t, s.radix[ix := Page(page)], Got(page));
      }
    case Abort(t) =>
      if t < |s.th| && s.th[t].Failed? {
        FinishStep(s, t, s.radix - {s.th[t].ix}, Null);
      }
    case Remove(ix) => if ix in s.radix && s.radix[ix].Page? { RemoveStep(s, ix); }
  }

  // ----- Every execution -----

  function Init(n: nat): State {
    State(map[], seq(n, i => Idle), seq(n, i => []), [], {})
  }

  /** The state after any sequence of actions of `n` threads. */
  ghost function Run(n: nat, acts: seq<Action>): (s: State)
    ensures Inv(s) && |s.th| == n
    decreases |acts|
  {
    if acts == [] then Init(n)
    else
      var s := Run(n, acts[..|acts| - 1]);
      InvStep(s, acts[|acts| - 1]);
      Act(s, acts[|acts| - 1])
  }

  /** At most one thread loads an index, and the index maps to its placeholder meanwhile. */
  lemma {:induction false} SingleFlight(n: nat, acts: seq<Action>, t: nat, u: nat, ix: nat)
    requires t < n && u < n
    ensures var s := Run(n, acts);
            && (Loads(s.th[t], ix) ==> ix in s.radix && s.radix[ix] == Placeholder(t))
            && (Loads(s.th[t], ix) && Loads(s.th[u], ix) ==> t == u)
            && (ix in s.radix && s.radix[ix].Placeholder? ==>
                  s.radix[ix].owner < n && Loads(s.th[s.radix[ix].owner], ix))
  {
    var s := Run(n, acts);
    assert ThreadInv(s.radix, s.wq, s.home, s.removed, t, s.th[t]);
    assert ThreadInv(s.radix, s.wq, s.home, s.removed, u, s.th[u]);
    if ix in s.radix { assert Owned(s.th, s.home, ix, s.radix[ix]); }
  }

  /** A sleeper's loader is still at work, and who is not loading has nobody queued. */
  lemma {:induction false} NobodyLeftBehind(n: nat, acts: seq<Action>, t: nat)
    requires t < n
    ensures var s := Run(n, acts);
            && |s.wq| == n
            && (s.th[t].Sleeping? ==>
                  s.th[t].on < n && Loads(s.th[s.th[t].on], s.th[t].ix) && t in s.wq[s.th[t].on])
            && (!IsLoader(s.th[t]) ==> s.wq[t] == [])
  {
    var s := Run(n, acts);
    assert ThreadInv(s.radix, s.wq, s.home, s.removed, t, s.th[t]);
    assert QueueInv(s.th, s.wq[t], t);
    if s.th[t].Sleeping? { assert Owned(s.th, s.home, s.th[t].ix, s.radix[s.th[t].ix]); }
  }

  /** Whoever was queued on a placeholder is back at its lookup once the loader returns. */
  lemma {:induction false} LoaderWakesAll(n: nat, acts: seq<Action>, t: nat, k: nat)
    requires t < n && k < n && Run(n, acts).th[t].Loaded? && Run(n, acts).th[k].Sleeping?
    requires Run(n, acts).th[k].on == t
    ensures var s, s' := Run(n, acts), Run(n, acts + [Commit(t)]);
            && s'.th[t] == Returned(s.th[t].ix, Got(s.th[t].page))
            && s'.th[k] == Retry(s.th[t].ix)
            && s.th[t].ix in s'.radix && s'.radix[s.th[t].ix] == Page(s.th[t].page)
  {
    var s := Run(n, acts);
    assert (acts + [Commit(t)])[..|acts|] == acts;
    assert ThreadInv(s.radix, s.wq, s.home, s.removed, t, s.th[t]);
    assert ThreadInv(s.radix, s.wq, s.home, s.removed, k, s.th[k]);
    assert Owned(s.th, s.home, s.th[k].ix, s.radix[s.th[k].ix]);
  }

  /** A loader that fails sends its waiters back too, and leaves the index free. */
  lemma {:induction false} FailureWakesAll(n: nat, acts: seq<Action>, t: nat, k: nat)
    requires t < n && k < n && Run(n, acts).th[t].Failed? && Run(n, acts).th[k].Sleeping?
    requires Run(n, acts).th[k].on == t
    ensures var s, s' := Run(n, acts), Run(n, acts + [Abort(t)]);
            && s'.th[t] == Returned(s.th[t].ix, Null)
            && s'.th[k] == Retry(s.th[t].ix)
            && s.th[t].ix !in s'.radix
  {
    var s := Run(n, acts);
    assert (acts + [Abort(t)])[..|acts|] == acts;
    assert ThreadInv(s.radix, s.wq, s.home, s.removed, t, s.th[t]);
    assert ThreadInv(s.radix, s.wq, s.home, s.removed, k, s.th[k]);
    assert Owned(s.th, s.home, s.th[k].ix, s.radix[s.th[k].ix]);
  }

  // ----- What a caller is answered -----

  /** A thread that is not in a call can make one. */
  lemma {:induction false} CallStarts(n: nat, acts: seq<Action>, t: nat, ix: nat)
    requires t < n && Done(Run(n, acts).th[t])
    ensures var s, s' := Run(n, acts), Run(n, acts + [Call(t, ix)]);
            s' == s.(th := s.th[t := Retry(ix)])
  {
    assert (acts + [Call(t, ix)])[..|acts|] == acts;
  }

  /**
   What a lookup decides.  A page in the mapper is returned.  A placeholder makes the caller
   sleep in the queue of its loader.  Otherwise the caller becomes the loader, or is answered
   NULL if its placeholder cannot be inserted.
   */
  lemma {:induction false} LookupDecides(n: nat, acts: seq<Action>, t: nat, inserted: bool)
    requires t < n && Run(n, acts).th[t].Retry?
    ensures var s, s' := Run(n, acts), Run(n, acts + [Enter(t, inserted)]);
            var ix := s.th[t].ix;
            if ix in s.radix && s.radix[ix].Page? then
              s'.th[t] == Returned(ix, Got(s.radix[ix].id)) && s'.radix == s.radix
            else if ix in s.radix then
              var o := s.radix[ix].owner;
              && s'.th[t] == Sleeping(ix, o) && s'.radix == s.radix
              && o < |s.wq| && |s'.wq| == |s.wq| && s'.wq[o] == s.wq[o] + [t]
            else if inserted then s'.th[t] == Loading(ix) && s'.radix == s.radix[ix := Placeholder(t)]
            else s'.th[t] == Returned(ix, Null) && s'.radix == s.radix
  {
    var s := Run(n, acts);
    assert (acts + [Enter(t, inserted)])[..|acts|] == acts;
    if s.th[t].ix in s.radix { assert Owned(s.th, s.home, s.th[t].ix, s.radix[s.th[t].ix]); }
  }

  /** A page that is removed is gone, and the next caller loads the index again; placeholders are not removed. */
  lemma {:induction false} RemovalIsSeen(n: nat, acts: seq<Action>, ix: nat)
    requires ix in Run(n, acts).radix
    ensures var s, s' := Run(n, acts), Run(n, acts + [Remove(ix)]);
            && s'.radix == (if s.radix[ix].Page? then s.radix - {ix} else s.radix)
            && s'.th == s.th && s'.wq == s.wq
  {
    assert (acts + [Remove(ix)])[..|acts|] == acts;
  }

  /** Every page a caller is given was loaded for its index, whatever was removed in between. */
  lemma {:induction false} AnswerIsRight(n: nat, acts: seq<Action>, t: nat, ix: nat, p: nat)
    requires t < n && Run(n, acts).th[t] == Returned(ix, Got(p))
    ensures LoadedFor(Run(n, acts).home, p, ix)
  {
    var s := Run(n, acts);
    assert ThreadInv(s.radix, s.wq, s.home, s.removed, t, s.th[t]);
  }

  /** No load and no insertion fails. */
  predicate NoFailure(acts: seq<Action>) {
    forall k | 0 <= k < |acts| :: (acts[k].Load? ==> acts[k].ok) && (acts[k].Enter? ==> acts[k].inserted)
  }

  /** Then nobody is ever answered NULL: it is the answer to a failure only. */
  lemma {:induction false} NullMeansFailure(n: nat, acts: seq<Action>, t: nat)
    requires t < n && NoFailure(acts)
    ensures var p := Run(n, acts).th[t]; !p.Failed? && (p.Returned? ==> p.ans.Got?)
    decreases |acts|
  {
    if acts != [] {
      var before := acts[..|acts| - 1];
      hide Inv;
      NullMeansFailure(n, before, t);
      forall u | 0 <= u < n ensures var p := Run(n, before).th[u]; !p.Failed? && (p.Returned? ==> p.ans.Got?) {
        NullMeansFailure(n, before, u);
      }
      InvStep(Run(n, before), acts[|acts| - 1]);
      NoNullStep(Run(n, before), acts[|acts| - 1], t);
    }
  }

  lemma {:induction false} NoNullStep(s: State, a: Action, t: nat)
    requires Shape(s) && t < |s.th| && (a.Load? ==> a.ok) && (a.Enter? ==> a.inserted)
    requires forall u | 0 <= u < |s.th| :: !s.th[u].Failed? && (s.th[u].Returned? ==> s.th[u].ans.Got?)
    ensures |Act(s, a).th| == |s.th| && var p := Act(s, a).th[t]; !p.Failed? && (p.Returned? ==> p.ans.Got?)
  {
  }

  /** No page is in the mapper at two indices. */
  lemma {:induction false} OneIndexPerPage(n: nat, acts: seq<Action>, ix: nat, jx: nat, p: nat)
    requires ix in Run(n, acts).radix && jx in Run(n, acts).radix
    requires Run(n, acts).radix[ix] == Page(p) && Run(n, acts).radix[jx] == Page(p)
    ensures ix == jx
  {
    var s := Run(n, acts);
    assert Owned(s.th, s.home, ix, s.radix[ix]) && Owned(s.th, s.home, jx, s.radix[jx]);
  }

  /** A page stays at its index until it is removed. */
  lemma {:induction false} PageStays(n: nat, acts: seq<Action>, more: seq<Action>, ix: nat, p: nat)
    requires ix in Run(n, acts).radix && Run(n, acts).radix[ix] == Page(p)
    requires forall k | 0 <= k < |more| :: more[k] != Remove(ix)
    ensures ix in Run(n, acts + more).radix && Run(n, acts + more).radix[ix] == Page(p)
    decreases |more|
  {
    hide Act, Inv;
    if more == [] {
      assert acts + more == acts;
    } else {
      var rest, a := more[..|more| - 1], more[|more| - 1];
      PageStays(n, acts, rest, ix, p);
      assert (acts + more)[..|acts + more| - 1] == acts + rest;
      StaysOneStep(Run(n, acts + rest), a, ix, p);
    }
  }

  lemma {:induction false} StaysOneStep(s: State, a: Action, ix: nat, p: nat)
    requires Inv(s) && ix in s.radix && s.radix[ix] == Page(p) && a != Remove(ix)
    ensures Shape(s) && ix in Act(s, a).radix && Act(s, a).radix[ix] == Page(p)
  {
    if (a.Commit? || a.Abort?) && a.t < |s.th| {
      assert ThreadInv(s.radix, s.wq, s.home, s.removed, a.t, s.th[a.t]);
    }
  }

  /** While no page is removed from an index, all callers that ever succeed there get the same page. */
  lemma {:induction false} SamePageForAll(n: nat, acts: seq<Action>, more: seq<Action>, t: nat, u: nat,
                                          ix: nat, p: nat, q: nat)
    requires t < n && u < n
    requires forall k | 0 <= k < |acts| :: acts[k] != Remove(ix)
    requires forall k | 0 <= k < |more| :: more[k] != Remove(ix)
    requires Run(n, acts).th[t] == Returned(ix, Got(p)) && Run(n, acts + more).th[u] == Returned(ix, Got(q))
    ensures p == q
  {
    var s, s' := Run(n, acts), Run(n, acts + more);
    NoRemovalNoRecord(n, acts, ix);
    NoRemovalNoRecord(n, acts + more, ix);
    assert ThreadInv(s.radix, s.wq, s.home, s.removed, t, s.th[t]);
    assert ThreadInv(s'.radix, s'.wq, s'.home, s'.removed, u, s'.th[u]);
    PageStays(n, acts, more, ix, p);
  }

  /** Only mapper_remove_page makes an index count as removed. */
  lemma {:induction false} NoRemovalNoRecord(n: nat, acts: seq<Action>, ix: nat)
    requires forall k | 0 <= k < |acts| :: acts[k] != Remove(ix)
    ensures ix !in Run(n, acts).removed
    decreases |acts|
  {
    if acts != [] {
      NoRemovalNoRecord(n, acts[..|acts| - 1], ix);
    }
  }

  // ----- Every call ends -----

  predicate Done(p: Pc) { p.Idle? || p.Returned? }

  /** Action `a` is the next step of a call under way. */
  predicate Moves(s: State, a: Action)
    requires Shape(s)
  {
    (a.Enter? || a.Load? || a.Commit? || a.Abort?) && Act(s, a) != s
  }

  /** What a call has left to do among `n` threads: a loader that returns may send all others back to their lookup. */
  function Weight(p: Pc, n: nat): nat {
    match p
    case Idle => 0
    case Returned(_, _) => 0
    case Sleeping(_, _) => 4 * n + 1
    case Loaded(_, _) => 4 * n + 3
    case Failed(_) => 4 * n + 3
    case Loading(_) => 4 * n + 4
    case Retry(_) => 4 * n + 5
  }

  function Work(th: seq<Pc>, n: nat): nat {
    if th == [] then 0 else Work(th[..|th| - 1], n) + Weight(th[|th| - 1], n)
  }

  lemma {:induction false} WorkUpdate(th: seq<Pc>, n: nat, t: nat, p: Pc)
    requires t < |th|
    ensures Work(th[t := p], n) + Weight(th[t], n) == Work(th, n) + Weight(p, n)
  {
    var m := |th| - 1;
    if t < m {
      WorkUpdate(th[..m], n, t, p);
      assert th[t := p][..m] == th[..m][t := p];
    } else {
      assert th[t := p][..m] == th[..m];
    }
  }

  lemma {:induction false} WorkGrows(th: seq<Pc>, th': seq<Pc>, n: nat)
    requires |th'| == |th| && forall k | 0 <= k < |th| :: Weight(th'[k], n) <= Weight(th[k], n) + 4
    ensures Work(th', n) <= Work(th, n) + 4 * |th|
  {
    if th != [] { WorkGrows(th[..|th| - 1], th'[..|th| - 1], n); }
  }

  lemma {:induction false} WorkBound(th: seq<Pc>, n: nat)
    ensures Work(th, n) <= (4 * n + 5) * |th|
  {
    if th != [] { WorkBound(th[..|th| - 1], n); }
  }

  lemma {:induction false} FinishWorks(th: seq<Pc>, t: nat, ans: Answer, q: seq<nat>)
    requires t < |th| && (th[t].Loaded? || th[t].Failed?)
    ensures Work(WakeAll(th[t := Returned(th[t].ix, ans)], q), |th|) < Work(th, |th|)
  {
    var n, mid := |th|, th[t := Returned(th[t].ix, ans)];
    WorkUpdate(th, n, t, Returned(th[t].ix, ans));
    hide Work;
    WorkGrows(mid, WakeAll(mid, q), n);
  }

  lemma {:induction false} PlainWorks(th: seq<Pc>, t: nat, p: Pc)
    requires t < |th| && Weight(p, |th|) < Weight(th[t], |th|)
    ensures Work(th[t := p], |th|) < Work(th, |th|)
  {
    WorkUpdate(th, |th|, t, p);
  }

  lemma {:induction false} MoveWorks(s: State, a: Action)
    requires Shape(s) && Moves(s, a)
    ensures Work(Act(s, a).th, |s.th|) < Work(s.th, |s.th|)
  {
    hide Work, WakeAll;
    var s', t := Act(s, a), a.t;
    if a.Commit? {
      FinishWorks(s.th, t, Got(s.th[t].page), s.wq[t]);
    } else if a.Abort? {
      FinishWorks(s.th, t, Null, s.wq[t]);
    } else {
      PlainWorks(s.th, t, s'.th[t]);
    }
  }

  /** A removal leaves the calls alone. */
  lemma {:induction false} RemoveWorks(s: State, ix: nat)
    requires Shape(s)
    ensures Act(s, Remove(ix)).th == s.th
  {
  }

  lemma {:induction false} SomebodyMoves(s: State, t: nat)
    requires Inv(s) && t < |s.th| && !Done(s.th[t])
    ensures exists a :: Moves(s, a)
  {
    assert ThreadInv(s.radix, s.wq, s.home, s.removed, t, s.th[t]);
    if s.th[t].Sleeping? {
      var o := s.th[t].on;
      assert Owned(s.th, s.home, s.th[t].ix, s.radix[s.th[t].ix]);
      LoaderMoves(s, o);
    } else if s.th[t].Retry? {
      if s.th[t].ix in s.radix { assert Owned(s.th, s.home, s.th[t].ix, s.radix[s.th[t].ix]); }
      assert Act(s, Enter(t, true)).th[t] != s.th[t];
      assert Moves(s, Enter(t, true));
    } else {
      LoaderMoves(s, t);
    }
  }

  lemma {:induction false} LoaderMoves(s: State, t: nat)
    requires Inv(s) && t < |s.th| && IsLoader(s.th[t])
    ensures exists a :: Moves(s, a)
  {
    var a := if s.th[t].Loading? then Load(t, true) else if s.th[t].Loaded? then Commit(t) else Abort(t);
    assert Act(s, a).th[t] != s.th[t];
    assert Moves(s, a);
  }

  /** After `acts`, no call is made in `more`: its actions are steps of calls under way, and removals. */
  ghost predicate OnlyMoves(n: nat, acts: seq<Action>, more: seq<Action>) {
    forall k | 0 <= k < |more| :: more[k].Remove? || Moves(Run(n, acts + more[..k]), more[k])
  }

  function CountMoves(acts: seq<Action>): nat {
    if acts == [] then 0 else CountMoves(acts[..|acts| - 1]) + if acts[|acts| - 1].Remove? then 0 else 1
  }

  lemma {:induction false} MovesCount(n: nat, acts: seq<Action>, more: seq<Action>)
    requires OnlyMoves(n, acts, more)
    ensures CountMoves(more) + Work(Run(n, acts + more).th, n) <= Work(Run(n, acts).th, n)
    decreases |more|
  {
    hide Inv, Act, Work;
    if more == [] {
      assert acts + more == acts;
    } else {
      var rest, a := more[..|more| - 1], more[|more| - 1];
      assert forall k | 0 <= k < |rest| :: rest[k] == more[k] && rest[..k] == more[..k];
      MovesCount(n, acts, rest);
      assert (acts + more)[..|acts + more| - 1] == acts + rest;
      var s := Run(n, acts + rest);
      InvStep(s, a);
      ShapeOf(s);
      if a.Remove? { RemoveWorks(s, a.ix); } else { MoveWorks(s, a); }
    }
  }

  lemma {:induction false} ShapeOf(s: State)
    requires Inv(s)
    ensures Shape(s)
  {
  }

  /**
   Every call ends.  Once `n` threads have called, they make at most (4n + 5) n steps in any
   interleaving, with loads that succeed or fail and pages that are removed, and until all
   of them have returned some step can be made.
   */
  lemma {:induction false} CallsEnd(n: nat, acts: seq<Action>, more: seq<Action>)
    requires OnlyMoves(n, acts, more)
    ensures CountMoves(more) <= (4 * n + 5) * n
    ensures var e := Run(n, acts + more);
            (forall t | 0 <= t < n :: Done(e.th[t])) || exists a :: Moves(e, a)
  {
    MovesCount(n, acts, more);
    WorkBound(Run(n, acts).th, n);
    var e := Run(n, acts + more);
    if t :| 0 <= t < n && !Done(e.th[t]) { SomebodyMoves(e, t); }
  }
}
