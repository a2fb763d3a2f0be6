/**
 The per-CPU event listener of kernel/kern/event.c: per-priority lists filled by
 local_event_send and drained by local_event_listner_notify, whose handlers may
 send further events while the drain goes on.

 What handlers do is a parameter: `script[k]` are the events sent while the k-th
 handled event of the drain runs, by its handler or by an interrupt; after the end
 of the script nothing is sent.  Every finite run of handlers is some script.
 */
module EventListener {

  const E_PRIO_NR: nat := 9
  const TOP: nat := E_PRIO_NR - 1   // the priority scanned last

  datatype Event = Event(prio: nat, id: nat)

  predicate WellFormed(s: seq<Event>) {
    forall k | 0 <= k < |s| :: s[k].prio < E_PRIO_NR
  }

  /** The events of one priority, in order. */
  function Of(s: seq<Event>, p: nat): seq<Event> {
    if s == [] then []
    else
      var e := s[|s| - 1];
      if e.prio == p then Of(s[..|s| - 1], p) + [e] else Of(s[..|s| - 1], p)
  }

  function Total(q: seq<seq<Event>>): nat {
    if q == [] then 0 else Total(q[..|q| - 1]) + |q[|q| - 1]|
  }

  lemma {:induction false} TotalUpdate(q: seq<seq<Event>>, p: nat, x: seq<Event>)
    requires p < |q|
    ensures Total(q[p := x]) + |q[p]| == Total(q) + |x|
  {
    var n := |q| - 1;
    if p < n {
      TotalUpdate(q[..n], p, x);
      assert q[p := x][..n] == q[..n][p := x];
    } else {
      assert q[p := x][..n] == q[..n];
    }
  }

  /** What handler number `k` sends. */
  function Sends(script: seq<seq<Event>>, k: nat): seq<Event> {
    if k < |script| then script[k] else []
  }

  /** What the first `n` handlers send. */
  function AllSends(script: seq<seq<Event>>, n: nat): seq<Event> {
    if n == 0 then [] else AllSends(script, n - 1) + Sends(script, n - 1)
  }

  /** How many sends are still to come from handler `k` on. */
  function ToCome(script: seq<seq<Event>>, k: nat): nat
    decreases |script| - k
  {
    if k < |script| then |script[k]| + ToCome(script, k + 1) else 0
  }

  /** Everything queued is announced: a notify will be asked for, and will start low enough. */
  predicate Announced(q: seq<seq<Event>>, pending: bool, prio: nat) {
    forall p | 0 <= p < |q| && q[p] != [] :: pending && prio <= p
  }

  /** In the middle of a drain: queued events are ahead of the scan, or announced. */
  predicate AheadOrAnnounced(q: seq<seq<Event>>, pending: bool, prio: nat, current: nat) {
    forall p | 0 <= p < |q| && q[p] != [] :: current <= p || (pending && prio <= p)
  }

  predicate Lists(q: seq<seq<Event>>, count: seq<nat>) {
    |q| == |count| == E_PRIO_NR && forall p | 0 <= p < |q| :: ListOk(q[p], count[p], p)
  }

  predicate ListOk(list: seq<Event>, count: nat, p: nat) {
    count == |list| && forall k | 0 <= k < |list| :: list[k].prio == p
  }

  lemma {:induction false} FirstLeaves(list: seq<Event>, count: nat, p: nat)
    requires ListOk(list, count, p) && list != []
    ensures count > 0 && list[0].prio == p && ListOk(list[1..], count - 1, p)
  {
  }

  lemma {:induction false} OneJoins(list: seq<Event>, count: nat, e: Event, first: bool)
    requires ListOk(list, count, e.prio)
    ensures ListOk(if first then [e] + list else list + [e], count + 1, e.prio)
  {
  }

  /** Of one priority, what was queued or sent is handled or queued, in order. */
  ghost predicate BalancedAt(was: seq<Event>, sent: seq<Event>, handled: seq<Event>, now: seq<Event>, p: nat) {
    was + Of(sent, p) == Of(handled, p) + now
  }

  /** Conservation: every event is handled once or still queued, first in first out within its priority. */
  ghost predicate Balance(was: seq<seq<Event>>, sent: seq<Event>, handled: seq<Event>, now: seq<seq<Event>>) {
    |was| == |now| && forall p | 0 <= p < |now| :: BalancedAt(was[p], sent, handled, now[p], p)
  }

  lemma {:induction false} OfAppend(s: seq<Event>, e: Event, p: nat)
    ensures Of(s + [e], p) == if e.prio == p then Of(s, p) + [e] else Of(s, p)
  {
    assert (s + [e])[..|s|] == s;
  }

  lemma AppendBoth<T>(a: seq<T>, b: seq<T>, c: seq<T>, d: seq<T>, e: T)
    requires a + b == c + d
    ensures a + (b + [e]) == c + (d + [e])
  {
    assert a + (b + [e]) == (a + b) + [e];
    assert c + (d + [e]) == (c + d) + [e];
  }

  lemma {:induction false} BalancedAtSend(was: seq<Event>, sent: seq<Event>, handled: seq<Event>,
                                          now: seq<Event>, p: nat, e: Event)
    requires BalancedAt(was, sent, handled, now, p)
    ensures BalancedAt(was, sent + [e], handled, if e.prio == p then now + [e] else now, p)
  {
    OfAppend(sent, e, p);
    AppendBoth(was, Of(sent, p), Of(handled, p), now, e);
  }

  lemma {:induction false} BalanceSend(was: seq<seq<Event>>, sent: seq<Event>, handled: seq<Event>,
                                       now: seq<seq<Event>>, e: Event)
    requires Balance(was, sent, handled, now) && e.prio < |now|
    ensures Balance(was, sent + [e], handled, now[e.prio := now[e.prio] + [e]])
  {
    forall p | 0 <= p < |now|
      ensures BalancedAt(was[p], sent + [e], handled, now[e.prio := now[e.prio] + [e]][p], p)
    {
      BalancedAtSend(was[p], sent, handled, now[p], p, e);
    }
  }

  lemma {:induction false} BalanceHandle(was: seq<seq<Event>>, sent: seq<Event>, handled: seq<Event>,
                                         now: seq<seq<Event>>, p: nat)
    requires Balance(was, sent, handled, now) && p < |now| && now[p] != [] && now[p][0].prio == p
    ensures Balance(was, sent, handled + [now[p][0]], now[p := now[p][1..]])
  {
    var e := now[p][0];
    forall r | 0 <= r < |now|
      ensures BalancedAt(was[r], sent, handled + [e], now[p := now[p][1..]][r], r)
    {
      OfAppend(handled, e, r);
      assert BalancedAt(was[r], sent, handled, now[r], r);
      if r == p { assert Of(handled, p) + now[p] == (Of(handled, p) + [e]) + now[p][1..]; }
    }
  }

  // ----- What sends do to pending and prio -----

  /** The announcement after the sends `news`: pending, and the lowest priority announced. */
  ghost predicate Lowered(wasPending: bool, wasPrio: nat, news: seq<Event>, pending: bool, prio: nat) {
    && (pending <==> wasPending || news != [])
    && (wasPending ==> prio <= wasPrio)
    && (forall k | 0 <= k < |news| :: prio <= news[k].prio)
    && (prio == wasPrio || exists k :: 0 <= k < |news| && news[k].prio == prio)
    && (news == [] ==> prio == wasPrio)
  }

  lemma {:induction false} LoweredTwice(p0: bool, r0: nat, a: seq<Event>, p1: bool, r1: nat, b: seq<Event>, p2: bool, r2: nat)
    requires Lowered(p0, r0, a, p1, r1) && Lowered(p1, r1, b, p2, r2)
    ensures Lowered(p0, r0, a + b, p2, r2)
  {
    var c := a + b;
    forall k | 0 <= k < |c| ensures r2 <= c[k].prio { assert c[k] == if k < |a| then a[k] else b[k - |a|]; }
    if r2 != r1 {
      var k :| 0 <= k < |b| && b[k].prio == r2;
      assert c[|a| + k] == b[k];
    } else if r1 != r0 {
      var k :| 0 <= k < |a| && a[k].prio == r1;
      assert c[k] == a[k];
    }
  }

  lemma {:induction false} LoweredNot(p0: bool, r0: nat)
    ensures Lowered(p0, r0, [], p0, r0)
  {
  }

  lemma {:induction false} LoweredOnce(p0: bool, r0: nat, e: Event)
    ensures Lowered(p0, r0, [e], true, if !p0 || r0 > e.prio then e.prio else r0)
  {
    assert [e][0].prio == e.prio;
  }

  // ----- Where a drain starts over -----

  /** `start` is the lowest of a priority and those of the events sent. */
  ghost predicate IsLowest(prio: nat, sent: seq<Event>, start: nat) {
    && start <= prio && (forall k | 0 <= k < |sent| :: start <= sent[k].prio)
    && (start == prio || exists k :: 0 <= k < |sent| && sent[k].prio == start)
  }

  /** Between two passes: a send below `start` is announced, and `start` and `prio` come from somewhere. */
  ghost predicate Restarts(prio0: nat, sent: seq<Event>, start: nat, prio: nat) {
    && (forall k | 0 <= k < |sent| :: start <= sent[k].prio || prio <= sent[k].prio)
    && start <= prio0
    && (start == prio0 || exists k :: 0 <= k < |sent| && sent[k].prio == start)
    && (prio == start + 1 || exists k :: 0 <= k < |sent| && sent[k].prio == prio)
  }

  /** The test at the head of the loop. */
  lemma {:induction false} RestartIs(prio0: nat, sent: seq<Event>, start: nat, prio: nat)
    requires Restarts(prio0, sent, start, prio)
    ensures IsLowest(prio0, sent, if prio <= start then prio else start)
    ensures prio <= start ==> Restarts(prio0, sent, prio, prio + 1)
  {
  }

  lemma {:induction false} RestartsStep(prio0: nat, sent: seq<Event>, start: nat, prio: nat,
                                        news: seq<Event>, wasPending: bool, pending: bool, prio': nat)
    requires Restarts(prio0, sent, start, prio) && start < prio && Lowered(wasPending, prio, news, pending, prio')
    ensures Restarts(prio0, sent + news, start, prio')
  {
    var c := sent + news;
    forall k | 0 <= k < |c| ensures start <= c[k].prio || prio' <= c[k].prio {
      assert c[k] == if k < |sent| then sent[k] else news[k - |sent|];
    }
    if start != prio0 {
      var k :| 0 <= k < |sent| && sent[k].prio == start;
      assert c[k] == sent[k];
    }
    if prio' != prio {
      var k :| 0 <= k < |news| && news[k].prio == prio';
      assert c[|sent| + k] == news[k];
    } else if prio != start + 1 {
      var k :| 0 <= k < |sent| && sent[k].prio == prio;
      assert c[k] == sent[k];
    }
  }

  lemma {:induction false} OfConcat(a: seq<Event>, b: seq<Event>, p: nat)
    ensures Of(a + b, p) == Of(a, p) + Of(b, p)
  {
    if b == [] {
      assert a + b == a;
    } else {
      var c, e := b[..|b| - 1], b[|b| - 1];
      assert a + b == (a + c) + [e] && b == c + [e];
      OfAppend(a + c, e, p);
      OfAppend(c, e, p);
      OfConcat(a, c, p);
    }
  }

  lemma {:induction false} OfEmpty(s: seq<Event>, p: nat)
    ensures Of(s, p) == [] <==> forall k | 0 <= k < |s| :: s[k].prio != p
  {
    if s != [] { OfEmpty(s[..|s| - 1], p); }
  }

  /** The last pass, over the top priority, adds to the other lists what it sends. */
  lemma {:induction false} LastPassAt(was: seq<Event>, sent: seq<Event>, handled: seq<Event>, before: seq<Event>,
                                      late: seq<Event>, top: seq<Event>, after: seq<Event>, p: nat)
    requires BalancedAt(was, sent, handled, before, p) && BalancedAt(was, sent + late, handled + top, after, p)
    requires p != TOP && forall k | 0 <= k < |top| :: top[k].prio == TOP
    ensures after == before + Of(late, p)
  {
    OfConcat(sent, late, p);
    OfConcat(handled, top, p);
    OfEmpty(top, p);
    var h := Of(handled, p);
    assert was + (Of(sent, p) + Of(late, p)) == (was + Of(sent, p)) + Of(late, p);
    assert h + [] == h && h + (before + Of(late, p)) == (h + before) + Of(late, p);
    assert h + (before + Of(late, p)) == h + after;
    assert (h + after)[|h|..] == after && (h + (before + Of(late, p)))[|h|..] == before + Of(late, p);
  }

  /** Something at or below `start` is left over. */
  ghost predicate LeftBelow(q: seq<seq<Event>>, start: nat) { exists p :: 0 <= p < |q| && p <= start && q[p] != [] }

  /** Something at or below `start`, and below the top priority, was sent. */
  ghost predicate SentBelow(late: seq<Event>, start: nat) {
    exists k :: 0 <= k < |late| && late[k].prio <= start && late[k].prio < TOP
  }

  /** The two states of a listener around its last pass. */
  ghost predicate AroundLast(was: seq<seq<Event>>, sent: seq<Event>, handled: seq<Event>, before: seq<seq<Event>>,
                             late: seq<Event>, top: seq<Event>, after: seq<seq<Event>>, start: nat)
  {
    && Balance(was, sent, handled, before) && Balance(was, sent + late, handled + top, after)
    && |before| == |after| == E_PRIO_NR && after[TOP] == [] && WellFormed(late)
    && (forall k | 0 <= k < |top| :: top[k].prio == TOP)
    && (forall p | 0 <= p < TOP && p <= start :: before[p] == [])
  }

  lemma {:induction false} LeftAt(was: seq<seq<Event>>, sent: seq<Event>, handled: seq<Event>, before: seq<seq<Event>>,
                                  late: seq<Event>, top: seq<Event>, after: seq<seq<Event>>, start: nat, p: nat)
    requires AroundLast(was, sent, handled, before, late, top, after, start) && p < TOP && p <= start
    ensures after[p] == Of(late, p)
  {
    assert BalancedAt(was[p], sent, handled, before[p], p);
    assert BalancedAt(was[p], sent + late, handled + top, after[p], p);
    hide BalancedAt, Of;
    LastPassAt(was[p], sent, handled, before[p], late, top, after[p], p);
  }

  lemma {:induction false} LastPass(was: seq<seq<Event>>, sent: seq<Event>, handled: seq<Event>, before: seq<seq<Event>>,
                                    late: seq<Event>, top: seq<Event>, after: seq<seq<Event>>, start: nat)
    requires AroundLast(was, sent, handled, before, late, top, after, start)
    ensures LeftBelow(after, start) <==> SentBelow(late, start)
  {
    hide Balance, Of;
    if LeftBelow(after, start) {
      var p :| 0 <= p < |after| && p <= start && after[p] != [];
      LeftAt(was, sent, handled, before, late, top, after, start, p);
      OfEmpty(late, p);
    }
    if SentBelow(late, start) {
      var k :| 0 <= k < |late| && late[k].prio <= start && late[k].prio < TOP;
      var p := late[k].prio;
      LeftAt(was, sent, handled, before, late, top, after, start, p);
      OfEmpty(late, p);
      assert after[p] != [];
    }
  }

  /** No event is handled before it was queued: event `k` comes from the lists at the start or from earlier handlers. */
  ghost predicate CausedAt(was: seq<seq<Event>>, script: seq<seq<Event>>, handled: seq<Event>, k: nat)
    requires k < |handled|
  {
    var p := handled[k].prio;
    p < |was| && Of(handled[..k + 1], p) <= was[p] + Of(AllSends(script, k), p)
  }

  ghost predicate Causal(was: seq<seq<Event>>, script: seq<seq<Event>>, handled: seq<Event>) {
    forall k | 0 <= k < |handled| :: CausedAt(was, script, handled, k)
  }

  lemma {:induction false} CausalStep(was: seq<seq<Event>>, script: seq<seq<Event>>, handled: seq<Event>,
                                     now: seq<seq<Event>>, p: nat)
    requires Causal(was, script, handled) && Balance(was, AllSends(script, |handled|), handled, now)
    requires p < |now| && now[p] != [] && now[p][0].prio == p
    ensures Causal(was, script, handled + [now[p][0]])
  {
    hide Of, AllSends, Balance;
    var n, e := |handled|, now[p][0];
    var h := handled + [e];
    forall k | 0 <= k < |h| ensures CausedAt(was, script, h, k) {
      if k < n {
        assert h[k] == handled[k] && h[..k + 1] == handled[..k + 1];
        assert CausedAt(was, script, handled, k);
      } else {
        assert h[..n + 1] == h;
        BalanceAt(was, AllSends(script, n), handled, now, p);
        NextCaused(was[p], AllSends(script, n), handled, now[p], p);
      }
    }
  }

  lemma {:induction false} NextCaused(was: seq<Event>, sent: seq<Event>, handled: seq<Event>, now: seq<Event>, p: nat)
    requires BalancedAt(was, sent, handled, now, p) && now != [] && now[0].prio == p
    ensures Of(handled + [now[0]], p) <= was + Of(sent, p)
  {
    OfAppend(handled, now[0], p);
    assert Of(handled, p) + now == (Of(handled, p) + [now[0]]) + now[1..];
  }

  predicate ByPriority(handled: seq<Event>) {
    forall i, j | 0 <= i < j < |handled| :: handled[i].prio <= handled[j].prio
  }

  class Listener {
    var total: nat            // el->count
    var pending: bool         // el->flags & EVENT_PENDING
    var prio: nat             // el->prio
    var q: seq<seq<Event>>    // el->tbl[].root
    var count: seq<nat>       // el->tbl[].count

    ghost predicate Valid()
      reads this
    {
      Lists(q, count) && Announced(q, pending, prio)
    }

    /** event_listner_init */
    constructor ()
      ensures Valid() && !pending && forall p | 0 <= p < E_PRIO_NR :: q[p] == []
    {
      total, pending, prio := 0, false, 0;
      q := seq(E_PRIO_NR, i => []);
      count := seq(E_PRIO_NR, i => 0);
    }

    /** local_event_send */
    method Send(e: Event, isFifo: bool)
      requires Lists(q, count) && e.prio < E_PRIO_NR
      modifies this`pending, this`prio, this`q, this`count
      ensures Lists(q, count) && pending && prio <= e.prio
      ensures q == old(q)[e.prio := if isFifo then old(q)[e.prio] + [e] else [e] + old(q)[e.prio]]
      ensures prio == if !old(pending) || old(prio) > e.prio then e.prio else old(prio)
      ensures old(Announced(q, pending, prio)) ==> Announced(q, pending, prio)
    {
      var p := e.prio;
      OneJoins(q[p], count[p], e, !isFifo);
      hide ListOk;
      if isFifo {
        q := q[p := q[p] + [e]];
      } else {
        q := q[p := [e] + q[p]];
      }
      count := count[p := count[p] + 1];
      prio := if !pending || prio > p then p else prio;
      pending := true;
    }

    /** event_send in the middle of a drain. */
    method SendDuring(e: Event, ghost current: nat, ghost was: seq<seq<Event>>,
                      ghost sent: seq<Event>, ghost handled: seq<Event>)
      requires Lists(q, count) && e.prio < E_PRIO_NR
      requires AheadOrAnnounced(q, pending, prio, current) && Balance(was, sent, handled, q)
      modifies this`pending, this`prio, this`q, this`count
      ensures Lists(q, count) && AheadOrAnnounced(q, pending, prio, current)
      ensures Balance(was, sent + [e], handled, q)
      ensures Total(q) == old(Total(q)) + 1
      ensures Lowered(old(pending), old(prio), [e], pending, prio)
    {
      LoweredOnce(pending, prio, e);
      TotalUpdate(q, e.prio, q[e.prio] + [e]);
      BalanceSend(was, sent, handled, q, e);
      Send(e, true);
    }

    /** The events sent while one handler runs. */
    method RunHandler(es: seq<Event>, ghost current: nat, ghost was: seq<seq<Event>>,
                      ghost sent0: seq<Event>, ghost handled: seq<Event>)
      returns (ghost sent: seq<Event>)
      requires Lists(q, count) && WellFormed(es)
      requires AheadOrAnnounced(q, pending, prio, current) && Balance(was, sent0, handled, q)
      modifies this`pending, this`prio, this`q, this`count
      ensures Lists(q, count) && AheadOrAnnounced(q, pending, prio, current)
      ensures sent == sent0 + es && Balance(was, sent, handled, q)
      ensures Total(q) == old(Total(q)) + |es|
      ensures Lowered(old(pending), old(prio), es, pending, prio)
    {
      hide Lowered, Balance, Lists, AheadOrAnnounced, Total;
      LoweredNot(pending, prio);
      sent := sent0;
      for i := 0 to |es|
        invariant Lists(q, count) && AheadOrAnnounced(q, pending, prio, current)
        invariant sent == sent0 + es[..i] && Balance(was, sent, handled, q)
        invariant Total(q) == old(Total(q)) + i
        invariant Lowered(old(pending), old(prio), es[..i], pending, prio)
      {
        assert es[..i+1] == es[..i] + [es[i]];
        ghost var p1, r1 := pending, prio;
        SendDuring(es[i], current, was, sent, handled);
        LoweredTwice(old(pending), old(prio), es[..i], p1, r1, [es[i]], pending, prio);
        sent := sent + [es[i]];
      }
      assert es[..|es|] == es;
    }

    /** In the middle of a drain: `n` events handled, the scan at `current`. */
    ghost predicate Draining(script: seq<seq<Event>>, was: seq<seq<Event>>, current: nat, n: nat,
                             sent: seq<Event>, handled: seq<Event>)
      reads this
    {
      && Lists(q, count) && AheadOrAnnounced(q, pending, prio, current) && Balance(was, sent, handled, q)
      && n == |handled| && sent == AllSends(script, n) && Causal(was, script, handled)
    }

    /** The events still to be handled: those queued and those still to be sent. */
    ghost function Outstanding(script: seq<seq<Event>>, n: nat): nat
      reads this
    {
      Total(q) + ToCome(script, n)
    }

    /** list_first and list_unlink, with the count. */
    method TakeFirst(current: nat, ghost was: seq<seq<Event>>, ghost sent: seq<Event>, ghost handled: seq<Event>)
      returns (e: Event)
      requires Lists(q, count) && current < |q| && q[current] != []
      requires AheadOrAnnounced(q, pending, prio, current) && Balance(was, sent, handled, q)
      modifies this`q, this`count
      ensures Lists(q, count) && e == old(q)[current][0] && e.prio == current && Total(q) + 1 == old(Total(q))
      ensures AheadOrAnnounced(q, pending, prio, current) && Balance(was, sent, handled + [e], q)
    {
      FirstLeaves(q[current], count[current], current);
      TotalUpdate(q, current, q[current][1..]);
      BalanceHandle(was, sent, handled, q, current);
      hide Balance, Total, ListOk;
      e := q[current][0];
      q := q[current := q[current][1..]];
      count := count[current := count[current] - 1];
    }

    /** Unlinks the first event of the list and runs its handler. */
    method HandleFirst(current: nat, n: nat, script: seq<seq<Event>>, ghost was: seq<seq<Event>>,
                       ghost sent0: seq<Event>, ghost handled0: seq<Event>)
      returns (ghost sent: seq<Event>, ghost handled: seq<Event>)
      requires Draining(script, was, current, n, sent0, handled0) && current < |q| && q[current] != []
      requires forall k | 0 <= k < |script| :: WellFormed(script[k])
      modifies this`pending, this`prio, this`q, this`count
      ensures Draining(script, was, current, n + 1, sent, handled)
      ensures handled == handled0 + [old(q[current][0])] && old(q[current][0]).prio == current
      ensures sent == sent0 + Sends(script, n)
      ensures Outstanding(script, n + 1) + 1 == old(Outstanding(script, n))
      ensures Lowered(old(pending), old(prio), Sends(script, n), pending, prio)
    {
      FirstLeaves(q[current], count[current], current);
      CausalStep(was, script, handled0, q, current);
      hide Balance, Total, Lists, AheadOrAnnounced, Lowered, Causal;
      var e := TakeFirst(current, was, sent0, handled0);
      handled := handled0 + [e];
      sent := RunHandler(Sends(script, n), current, was, sent0, handled);
    }

    /** The inner loop of the drain: handles events of one priority until there is none. */
    method Drain(current: nat, n0: nat, script: seq<seq<Event>>, ghost was: seq<seq<Event>>,
                 ghost sent0: seq<Event>, ghost handled0: seq<Event>)
      returns (n: nat, ghost sent: seq<Event>, ghost handled: seq<Event>, ghost news: seq<Event>, ghost done: seq<Event>)
      requires current < E_PRIO_NR && Draining(script, was, current, n0, sent0, handled0)
      requires forall k | 0 <= k < |script| :: WellFormed(script[k])
      modifies this`pending, this`prio, this`q, this`count
      ensures Draining(script, was, current + 1, n, sent, handled) && current < |q| && q[current] == []
      ensures sent == sent0 + news && handled == handled0 + done && WellFormed(news)
      ensures forall k | 0 <= k < |done| :: done[k].prio == current
      ensures Outstanding(script, n) + n == old(Outstanding(script, n0)) + n0 && n == n0 + |done|
      ensures Lowered(old(pending), old(prio), news, pending, prio)
      ensures done == [] ==> news == []
    {
      hide Balance, Lists, AheadOrAnnounced, Total, ToCome, AllSends, Lowered, Causal;
      n, sent, handled, news, done := n0, sent0, handled0, [], [];
      assert WellFormed(news);
      hide WellFormed, Sends;
      ListAt(q, count, current);
      LoweredNot(pending, prio);
      while count[current] != 0
        invariant Draining(script, was, current, n, sent, handled)
        invariant current < |count| && current < |q| && count[current] == |q[current]|
        invariant sent == sent0 + news && handled == handled0 + done && WellFormed(news)
        invariant forall k | 0 <= k < |done| :: done[k].prio == current
        invariant Outstanding(script, n) + n == old(Outstanding(script, n0)) + n0 && n == n0 + |done|
        invariant Lowered(old(pending), old(prio), news, pending, prio)
        invariant done == [] ==> news == []
        decreases Outstanding(script, n)
      {
        ghost var p1, r1, e := pending, prio, q[current][0];
        sent, handled := HandleFirst(current, n, script, was, sent, handled);
        LoweredTwice(old(pending), old(prio), news, p1, r1, Sends(script, n), pending, prio);
        AllWellFormed(script, n, news);
        assert sent0 + (news + Sends(script, n)) == (sent0 + news) + Sends(script, n);
        assert handled0 + (done + [e]) == (handled0 + done) + [e];
        news, done := news + Sends(script, n), done + [e];
        n := n + 1;
        ListAt(q, count, current);
      }
      PassedEmpty(q, pending, prio, current);
    }

    /**
     local_event_listner_notify.  `start` is where the last scan began, and `m` how many events
     were handled before its last pass, over the top priority.  That pass is not followed by
     another look at prio, so what it sends to a lower priority stays behind, announced.
     */
    method Notify(script: seq<seq<Event>>)
      returns (ghost sent: seq<Event>, ghost handled: seq<Event>, ghost start: nat, ghost m: nat)
      requires Valid() && pending
      requires forall k | 0 <= k < |script| :: WellFormed(script[k])
      modifies this
      ensures Valid() && (pending <==> sent != [])
      ensures sent == AllSends(script, |handled|) && Balance(old(q), sent, handled, q) && Causal(old(q), script, handled)
      ensures total == old(total) + |handled|
      ensures sent == [] ==> ByPriority(handled) && forall p | 0 <= p < E_PRIO_NR :: q[p] == []
      ensures Total(q) + |handled| == old(Total(q)) + |sent|
      ensures m <= |handled| && forall k | 0 <= k < |handled| :: handled[k].prio == TOP <==> m <= k
      ensures AllSends(script, m) <= sent && IsLowest(old(prio), AllSends(script, m), start)
      ensures LeftBelow(q, start) <==> SentBelow(sent[|AllSends(script, m)|..], start)
    {
      hide Balance, Total, ToCome, Lowered, Restarts, IsLowest, LeftBelow, SentBelow, AllSends, Lists, ByPriority, Causal;
      ghost var was, prio0 := q, prio;
      sent, handled := [], [];
      var n: nat := 0;
      pending := false;
      var from: nat := prio;
      prio := prio + 1;
      var current: nat := from;
      ListsLength(q, count);
      FirstScan(script, prio0);
      start, m := from, 0;
      while current < E_PRIO_NR
        invariant Scanning(script, was, prio0, from, current, n, sent, handled) && total == old(total)
        invariant Outstanding(script, n) + n == old(Outstanding(script, 0))
        invariant current >= E_PRIO_NR ==> Finished(script, prio0, sent, handled, start, m)
        decreases Outstanding(script, n), if prio <= from then 1 else 0, E_PRIO_NR - current
      {
        from, current, n, sent, handled, start, m := Pass(script, from, current, n, was, prio0, sent, handled);
      }
      ListsLength(q, count);
      total := total + n;
      SentAndToCome(script, n);
    }

    /** The state at the head of the outer loop. */
    ghost predicate Scanning(script: seq<seq<Event>>, was: seq<seq<Event>>, prio0: nat, from: nat, current: nat, n: nat,
                             sent: seq<Event>, handled: seq<Event>)
      reads this
    {
      && Draining(script, was, current, n, sent, handled)
      && (current < E_PRIO_NR ==> forall k | 0 <= k < |handled| :: handled[k].prio < TOP)
      && from <= current && (pending <==> sent != []) && Restarts(prio0, sent, from, prio)
      && (sent == [] ==> from < prio && ByPriority(handled) && forall k | 0 <= k < |handled| :: handled[k].prio < current)
    }

    /** One turn of the outer loop. */
    method Pass(script: seq<seq<Event>>, from0: nat, current0: nat, n0: nat, ghost was: seq<seq<Event>>, ghost prio0: nat,
                ghost sent0: seq<Event>, ghost handled0: seq<Event>)
      returns (from: nat, current: nat, n: nat, ghost sent: seq<Event>, ghost handled: seq<Event>,
               ghost start: nat, ghost m: nat)
      requires Scanning(script, was, prio0, from0, current0, n0, sent0, handled0) && current0 < E_PRIO_NR
      requires forall k | 0 <= k < |script| :: WellFormed(script[k])
      modifies this`pending, this`prio, this`q, this`count
      ensures Scanning(script, was, prio0, from, current, n, sent, handled) && current <= E_PRIO_NR
      ensures Outstanding(script, n) + n == old(Outstanding(script, n0)) + n0 && n >= n0
      ensures n == n0 ==> prio > from && (old(prio) <= from0 || current == current0 + 1)
      ensures current == E_PRIO_NR ==> Finished(script, prio0, sent, handled, start, m)
    {
      hide Balance, Total, ToCome, Lowered, Restarts, IsLowest, LeftBelow, SentBelow,
           AllSends, Lists, AheadOrAnnounced, Causal;
      from, current := from0, current0;
      RestartIs(prio0, sent0, from, prio);
      if prio <= from {
        RestartAhead(q, pending, prio, current);
        from := prio;
        prio := prio + 1;
        current := from;
      }
      ghost var before, p1, r1 := q, pending, prio;
      start, m := from, n0;
      ListsLength(q, count);
      NothingBelow(q, pending, prio, current, from);
      ghost var news, done;
      n, sent, handled, news, done := Drain(current, n0, script, was, sent0, handled0);
      RestartsStep(prio0, sent0, from, r1, news, p1, pending, prio);
      LoweredNews(p1, r1, news, pending, prio);
      ListsLength(q, count);
      if current == TOP {
        LastPass(was, sent0, handled0, before, news, done, q, from);
        assert sent[|sent0|..] == news;
      }
      current := current + 1;
    }

    /** What Notify says about its last pass. */
    ghost predicate Finished(script: seq<seq<Event>>, prio0: nat, sent: seq<Event>, handled: seq<Event>, start: nat, m: nat)
      reads this
    {
      && m <= |handled| && (forall k | 0 <= k < |handled| :: handled[k].prio == TOP <==> m <= k)
      && AllSends(script, m) <= sent && IsLowest(prio0, AllSends(script, m), start)
      && (LeftBelow(q, start) <==> SentBelow(sent[|AllSends(script, m)|..], start))
    }

    /** Before the first pass. */
    lemma {:induction false} FirstScan(script: seq<seq<Event>>, prio0: nat)
      requires Lists(q, count) && AheadOrAnnounced(q, pending, prio, prio0) && !pending && prio == prio0 + 1
      ensures Scanning(script, q, prio0, prio0, prio0, 0, [], [])
      ensures prio0 >= E_PRIO_NR ==> Finished(script, prio0, [], [], prio0, 0)
    {
      BalanceStart(q);
    }
  }

  /** A scan that starts over at the announced priority has everything announced ahead. */
  lemma {:induction false} RestartAhead(q: seq<seq<Event>>, pending: bool, prio: nat, current: nat)
    requires AheadOrAnnounced(q, pending, prio, current) && prio <= current
    ensures AheadOrAnnounced(q, pending, prio + 1, prio)
  {
  }

  /** At the head of a pass nothing lies at or below the start but what is ahead. */
  lemma {:induction false} NothingBelow(q: seq<seq<Event>>, pending: bool, prio: nat, current: nat, start: nat)
    requires AheadOrAnnounced(q, pending, prio, current) && start < prio
    ensures forall p | 0 <= p < |q| && p < current && p <= start :: q[p] == []
  {
  }

  lemma {:induction false} LoweredNews(wasPending: bool, wasPrio: nat, news: seq<Event>, pending: bool, prio: nat)
    requires Lowered(wasPending, wasPrio, news, pending, prio)
    ensures pending <==> wasPending || news != []
    ensures news == [] ==> prio == wasPrio
  {
  }

  lemma {:induction false} ListsLength(q: seq<seq<Event>>, count: seq<nat>)
    requires Lists(q, count)
    ensures |q| == |count| == E_PRIO_NR
  {
  }

  lemma {:induction false} AllWellFormed(script: seq<seq<Event>>, n: nat, news: seq<Event>)
    requires WellFormed(news) && forall k | 0 <= k < |script| :: WellFormed(script[k])
    ensures WellFormed(news + Sends(script, n))
  {
  }

  lemma {:induction false} ListAt(q: seq<seq<Event>>, count: seq<nat>, p: nat)
    requires Lists(q, count) && p < E_PRIO_NR
    ensures |q| == |count| == E_PRIO_NR && count[p] == |q[p]|
  {
  }

  lemma {:induction false} PassedEmpty(q: seq<seq<Event>>, pending: bool, prio: nat, current: nat)
    requires AheadOrAnnounced(q, pending, prio, current) && current < |q| && q[current] == []
    ensures AheadOrAnnounced(q, pending, prio, current + 1)
  {
  }

  lemma {:induction false} BalanceStart(q: seq<seq<Event>>)
    ensures Balance(q, [], [], q)
  {
  }

  /** What the first `n` handlers sent and what the rest will send is all the script holds. */
  lemma {:induction false} SentAndToCome(script: seq<seq<Event>>, n: nat)
    ensures |AllSends(script, n)| + ToCome(script, n) == ToCome(script, 0)
  {
    if n > 0 { SentAndToCome(script, n - 1); }
  }

  /**
   A late send: an event of the top priority is queued and its handler sends one of priority 2.
   The drain does not start over for it; it stays queued, announced for the next notify.
   */
  method LateSendStays() returns (l: Listener)
    ensures fresh(l) && l.Valid() && l.pending && l.prio <= 2 && l.q[2] == [Event(2, 1)]
  {
    l := new Listener();
    l.Send(Event(TOP, 0), true);
    ghost var was, script := l.q, [[Event(2, 1)]];
    ghost var sent, handled, start, m;
    sent, handled, start, m := l.Notify([[Event(2, 1)]]);
    OneLateSend(was, l.q, sent, handled, start, m);
  }

  lemma {:induction false} OneLateSend(was: seq<seq<Event>>, q: seq<seq<Event>>, sent: seq<Event>, handled: seq<Event>,
                                      start: nat, m: nat)
    requires |was| == |q| == E_PRIO_NR && was[TOP] == [Event(TOP, 0)] && (forall p | 0 <= p < TOP :: was[p] == [])
    requires var script := [[Event(2, 1)]];
             && sent == AllSends(script, |handled|) && Balance(was, sent, handled, q) && Causal(was, script, handled)
             && (sent == [] ==> forall p | 0 <= p < E_PRIO_NR :: q[p] == [])
             && m <= |handled| && (forall k | 0 <= k < |handled| :: handled[k].prio == TOP <==> m <= k)
    ensures q[2] == [Event(2, 1)]
  {
    hide Balance, Of, Causal, AllSends;
    var script := [[Event(2, 1)]];
    SomethingHandled(was, script, sent, handled, q);
    FirstFromList(was, script, handled);
    OnlyFirst(script, |handled|);
    OfEmpty(handled, 2);
    OfOne(Event(2, 1));
    assert BalancedAt(was[2], sent, handled, q[2], 2) by { BalanceAt(was, sent, handled, q, 2); }
    hide BalancedAt;
    BalancedThere([], Event(2, 1), handled, q[2], 2);
  }

  lemma {:induction false} BalancedThere(was: seq<Event>, e: Event, handled: seq<Event>, now: seq<Event>, p: nat)
    requires BalancedAt(was, [e], handled, now, p) && was == [] && Of(handled, p) == [] && Of([e], p) == [e]
    ensures now == [e]
  {
    assert [] + now == now && [] + [e] == [e];
  }

  lemma {:induction false} BalanceAt(was: seq<seq<Event>>, sent: seq<Event>, handled: seq<Event>,
                                    now: seq<seq<Event>>, p: nat)
    requires Balance(was, sent, handled, now) && p < |now|
    ensures p < |was| && BalancedAt(was[p], sent, handled, now[p], p)
  {
  }

  lemma {:induction false} OfOne(e: Event)
    ensures forall p :: Of([e], p) == if e.prio == p then [e] else []
  {
    forall p ensures Of([e], p) == if e.prio == p then [e] else [] {
      assert [] + [e] == [e];
      OfAppend([], e, p);
    }
  }

  lemma {:induction false} SomethingHandled(was: seq<seq<Event>>, script: seq<seq<Event>>, sent: seq<Event>,
                                           handled: seq<Event>, q: seq<seq<Event>>)
    requires |was| == |q| == E_PRIO_NR && was[TOP] != [] && Balance(was, sent, handled, q)
             && sent == AllSends(script, |handled|)
    requires sent == [] ==> forall p | 0 <= p < E_PRIO_NR :: q[p] == []
    ensures handled != []
  {
    BalanceAt(was, sent, handled, q, TOP);
    hide Balance;
  }

  lemma {:induction false} FirstFromList(was: seq<seq<Event>>, script: seq<seq<Event>>, handled: seq<Event>)
    requires handled != [] && Causal(was, script, handled)
    ensures handled[0].prio < |was| && was[handled[0].prio] != []
  {
    var p := handled[0].prio;
    assert CausedAt(was, script, handled, 0);
    assert handled[..1] == [handled[0]];
    OfOne(handled[0]);
  }

  lemma {:induction false} OnlyFirst(script: seq<seq<Event>>, n: nat)
    requires |script| == 1 && n >= 1
    ensures AllSends(script, n) == script[0]
  {
    if n > 1 { OnlyFirst(script, n - 1); }
  }
}
