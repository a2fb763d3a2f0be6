/**
 The slab cache of kernel/mm/kcm.c: pages of equal blocks on three lists (free,
 active, busy) with a bitmap of free blocks, a low-water index and a reference
 count per page.  Bodies under the cache lock are single steps.

 The page allocator is a parameter: `supply` is what page_alloc would hand out
 during the call, page by page, and it fails once that is used up.  A page arrives
 with arbitrary bits in its bitmap.
 */
module Kcm {
  import opened Counting
  import Bits

  const BITMAP_BITS: nat := 128  // BITMAP_DECLARE(bitmap, 16)

  /** page_info_t; `cur` is current_index and `ref` is refcount. */
  datatype Page = Page(bits: seq<bool>, cur: nat, ref: int, active: bool, busy: bool)

  datatype Block = Block(page: nat, index: nat)

  datatype Option<T> = None | Some(value: T)

  /** What page_alloc returns: a page and the bits it holds. */
  datatype Raw = Raw(page: nat, junk: seq<bool>)

  function Taken(bits: seq<bool>, n: nat): nat
    requires n <= |bits|
  {
    Count(bits[..n], b => !b)
  }

  /** The header of one page in a cache of `n` blocks per page. */
  ghost predicate PageOk(pg: Page, n: nat) {
    && n <= |pg.bits| == BITMAP_BITS
    && pg.cur <= n
    && pg.ref == Taken(pg.bits, n)
    && forall k | 0 <= k < pg.cur :: !pg.bits[k]
  }

  /** A page in each of the three lists. */
  predicate IsFree(pg: Page) { pg.ref == 0 && !pg.active && !pg.busy }

  predicate IsBusy(pg: Page, n: nat) { pg.ref == n && !pg.active && pg.busy }

  predicate IsActive(pg: Page, n: nat, head: bool) {
    !pg.busy && (pg.active <==> head) && (!head && n > 0 ==> pg.ref < n)
  }

  ghost predicate Lists(pages: map<nat, Page>, n: nat, free: seq<nat>, active: seq<nat>, busy: seq<nat>) {
    && (forall i | 0 <= i < |free| :: free[i] in pages && IsFree(pages[free[i]]))
    && (forall i | 0 <= i < |active| :: active[i] in pages && IsActive(pages[active[i]], n, i == 0))
    && (forall i | 0 <= i < |busy| :: busy[i] in pages && IsBusy(pages[busy[i]], n))
  }

  ghost predicate Pages(pages: map<nat, Page>, n: nat) {
    forall p | p in pages :: PageOk(pages[p], n)
  }

  /** Every page is on one list, once; `out` is a page between lists. */
  ghost predicate Shared(pages: map<nat, Page>, free: seq<nat>, active: seq<nat>, busy: seq<nat>, out: multiset<nat>) {
    multiset(free) + multiset(active) + multiset(busy) + out == multiset(pages.Keys)
  }

  /** The blocks handed out: the cleared bits. */
  ghost function Live(pages: map<nat, Page>, n: nat): set<Block>
    requires Pages(pages, n)
  {
    set p, k | p in pages && 0 <= k < n && !pages[p].bits[k] :: Block(p, k)
  }

  /** Every block of every page is handed out. */
  ghost predicate Full(pages: map<nat, Page>, n: nat) {
    forall p | p in pages :: pages[p].ref == n
  }

  predicate Fresh(supply: seq<Raw>, keys: set<nat>) {
    && (forall i | 0 <= i < |supply| :: supply[i].page !in keys && |supply[i].junk| == BITMAP_BITS)
    && (forall i, j | 0 <= i < j < |supply| :: supply[i].page != supply[j].page)
  }

  /** list_unlink */
  function Unlink(s: seq<nat>, p: nat): seq<nat> {
    if s == [] then []
    else if s[0] == p then s[1..]
    else [s[0]] + Unlink(s[1..], p)
  }

  lemma {:induction false} UnlinkIs(s: seq<nat>, p: nat)
    requires p in s
    ensures multiset(Unlink(s, p)) + multiset{p} == multiset(s)
    ensures |Unlink(s, p)| == |s| - 1
    ensures s[0] != p ==> |s| > 1 && Unlink(s, p)[0] == s[0]
    ensures s[0] == p ==> Unlink(s, p) == s[1..]
  {
    assert s == [s[0]] + s[1..];
    if s[0] != p { UnlinkIs(s[1..], p); }
  }

  /** What is left of a list was in it. */
  lemma {:induction false} UnlinkFrom(s: seq<nat>, p: nat, i: nat)
    requires i < |Unlink(s, p)|
    ensures exists j :: i <= j < |s| && s[j] == Unlink(s, p)[i] && (i == 0 && s[0] != p ==> j == 0)
  {
    if s[0] == p {
      assert s[i + 1] == Unlink(s, p)[i];
    } else if i == 0 {
      assert s[0] == Unlink(s, p)[0];
    } else {
      UnlinkFrom(s[1..], p, i - 1);
      var j :| i - 1 <= j < |s[1..]| && s[1..][j] == Unlink(s[1..], p)[i - 1];
      assert s[j + 1] == Unlink(s, p)[i];
    }
  }

  lemma {:induction false} TakenUpdate(bits: seq<bool>, n: nat, k: nat, b: bool)
    requires k < n <= |bits| && bits[k] != b
    ensures Taken(bits[k := b], n) == Taken(bits, n) + (if b then -1 else 1)
  {
    assert bits[k := b][..n] == bits[..n][k := b];
    CountUpdate(bits[..n], k, b, x => !x);
  }

  lemma {:induction false} TakenAll(bits: seq<bool>, n: nat)
    requires n <= |bits|
    ensures Taken(bits, n) <= n
    ensures Taken(bits, n) == n <==> forall k | 0 <= k < n :: !bits[k]
    ensures Taken(bits, n) == 0 <==> forall k | 0 <= k < n :: bits[k]
  {
    CountBounds(bits[..n], b => !b);
    assert forall k | 0 <= k < n :: bits[..n][k] == bits[k];
  }

  // ----- One page -----

  /** get_block: the page after taking its first free block, and that block, if there is one. */
  function Take(pg: Page, n: nat): (Page, Option<nat>)
    requires |pg.bits| == BITMAP_BITS
  {
    if pg.cur >= n then (pg, None)
    else
      var k := Bits.First(pg.bits, true, pg.cur);
      if k < 0 || k >= n || k >= BITMAP_BITS then (pg, None)
      else (pg.(bits := pg.bits[k := false], cur := k + 1, ref := pg.ref + 1), Some(k))
  }

  lemma {:induction false} TakeIs(pg: Page, n: nat)
    requires PageOk(pg, n)
    ensures var (pg', k) := Take(pg, n);
            && PageOk(pg', n) && (k.None? <==> pg.ref == n) && (k.None? ==> pg' == pg)
            && (k.Some? ==> (forall j | 0 <= j < k.value :: !pg.bits[j]) && pg'.cur == k.value + 1)
            && (k.Some? ==> k.value < n && pg.bits[k.value] && pg'.bits == pg.bits[k.value := false]
                            && pg'.ref == pg.ref + 1 && pg'.active == pg.active && pg'.busy == pg.busy)
  {
    TakenAll(pg.bits, n);
    if pg.cur < n {
      Bits.FirstIs(pg.bits, true, pg.cur);
      var k := Bits.First(pg.bits, true, pg.cur);
      if 0 <= k < n { TakenUpdate(pg.bits, n, k, false); }
    }
  }

  /** put_block, on the header of the page. */
  function Give(pg: Page, k: nat): Page
    requires k < |pg.bits|
  {
    pg.(bits := pg.bits[k := true], cur := if k < pg.cur then k else pg.cur, ref := pg.ref - 1)
  }

  lemma {:induction false} GiveIs(pg: Page, n: nat, k: nat)
    requires PageOk(pg, n) && k < n && !pg.bits[k]
    ensures PageOk(Give(pg, k), n) && PageOk(Give(pg, k).(busy := false), n) && 0 <= Give(pg, k).ref == pg.ref - 1 < n
    ensures Give(pg, k).cur <= k && Give(pg, k).cur in {k, pg.cur} && Give(pg, k).bits == pg.bits[k := true]
  {
    TakenUpdate(pg.bits, n, k, true);
    TakenAll(pg.bits, n);
  }

  /** What freelist_populate writes into a new page. */
  function NewPage(junk: seq<bool>, n: nat): Page
    requires n <= |junk|
  {
    Page(Bits.Filled(junk, 0, n, true), 0, 0, false, false)
  }

  lemma {:induction false} NewPageIs(junk: seq<bool>, n: nat)
    requires n <= |junk| == BITMAP_BITS
    ensures PageOk(NewPage(junk, n), n) && IsFree(NewPage(junk, n))
  {
    TakenAll(NewPage(junk, n).bits, n);
  }

  // ----- The lists -----

  /** The cache, with the pages of `out` on no list. */
  ghost predicate Cached(n: nat, pages: map<nat, Page>, free: seq<nat>, active: seq<nat>, busy: seq<nat>,
                         out: multiset<nat>)
  {
    && n <= BITMAP_BITS
    && Pages(pages, n) && Lists(pages, n, free, active, busy) && Shared(pages, free, active, busy, out)
  }

  lemma {:induction false} TwiceIn(s: seq<nat>, i: nat, j: nat)
    requires i < j < |s| && s[i] == s[j]
    ensures multiset(s)[s[i]] >= 2
  {
    assert s == s[..j] + s[j..];
    assert s[i] in s[..j] && s[j] in s[j..];
  }

  /** A page is on one list only, and only once. */
  lemma {:induction false} NotElsewhere(pages: map<nat, Page>, free: seq<nat>, active: seq<nat>, busy: seq<nat>,
                                        out: multiset<nat>, p: nat)
    requires Shared(pages, free, active, busy, out)
    ensures p in pages <==> p in free || p in active || p in busy || p in out
    ensures multiset(active)[p] <= 1 && multiset(busy)[p] <= 1
    ensures p in free ==> p !in active && p !in busy && p !in out
    ensures p in active ==> p !in busy && p !in out
    ensures p in busy ==> p !in out
    ensures forall i, j | 0 <= i < j < |active| && active[i] == p :: active[j] != p
    ensures forall i, j | 0 <= i < j < |free| && free[i] == p :: free[j] != p
    ensures forall i, j | 0 <= i < j < |busy| && busy[i] == p :: busy[j] != p
  {
    var m := multiset(free) + multiset(active) + multiset(busy) + out;
    assert m[p] <= 1;
    assert p in pages.Keys <==> m[p] > 0;
    forall i, j | 0 <= i < j < |active| && active[i] == p ensures active[j] != p {
      if active[j] == p { TwiceIn(active, i, j); }
    }
    forall i, j | 0 <= i < j < |free| && free[i] == p ensures free[j] != p {
      if free[j] == p { TwiceIn(free, i, j); }
    }
    forall i, j | 0 <= i < j < |busy| && busy[i] == p ensures busy[j] != p {
      if busy[j] == p { TwiceIn(busy, i, j); }
    }
  }

  /** The facts about single pages that callers need. */
  lemma {:induction false} OnLists(n: nat, pages: map<nat, Page>, free: seq<nat>, active: seq<nat>, busy: seq<nat>,
                                   out: multiset<nat>, p: nat)
    requires Cached(n, pages, free, active, busy, out)
    ensures p in pages <==> p in free || p in active || p in busy || p in out
    ensures p in pages ==> PageOk(pages[p], n)
    ensures p in free ==> IsFree(pages[p])
    ensures p in active ==> IsActive(pages[p], n, active[0] == p)
    ensures p in busy ==> IsBusy(pages[p], n)
  {
    NotElsewhere(pages, free, active, busy, out, p);
  }

  /** Every block is handed out exactly when the active head is full and alone, and no page is free. */
  lemma {:induction false} NoRoom(n: nat, pages: map<nat, Page>, free: seq<nat>, active: seq<nat>, busy: seq<nat>)
    requires Cached(n, pages, free, active, busy, multiset{}) && active != []
    ensures active[0] in pages
    ensures n >= 1 ==> (Full(pages, n) <==> pages[active[0]].ref == n && |active| == 1 && free == [])
    ensures n == 0 ==> pages[active[0]].ref == n
  {
    TakenAll(pages[active[0]].bits, n);
    if free != [] { OnLists(n, pages, free, active, busy, multiset{}, free[0]); }
    if |active| > 1 { assert IsActive(pages[active[1]], n, false); }
    if !Full(pages, n) {
      var p :| p in pages && pages[p].ref != n;
      OnLists(n, pages, free, active, busy, multiset{}, p);
    }
  }

  lemma NoLists(pages: map<nat, Page>, n: nat)
    ensures Lists(pages, n, [], [], [])
  {
  }

  lemma NewHead(pg: Page, n: nat)
    requires PageOk(pg, n) && IsFree(pg)
    ensures PageOk(pg.(active := true), n) && IsActive(pg.(active := true), n, true)
  {
  }

  /** A new page goes to the front of the free list. */
  lemma {:induction false} AddNew(n: nat, pages: map<nat, Page>, free: seq<nat>, active: seq<nat>, busy: seq<nat>,
                                  p: nat, pg: Page)
    requires Cached(n, pages, free, active, busy, multiset{}) && p !in pages && PageOk(pg, n) && IsFree(pg)
    ensures Cached(n, pages[p := pg], [p] + free, active, busy, multiset{})
  {
    var pages' := pages[p := pg];
    assert pages'.Keys == pages.Keys + {p};
    assert multiset(pages'.Keys) == multiset(pages.Keys) + multiset{p};
    assert multiset([p] + free) == multiset{p} + multiset(free);
    assert Lists(pages', n, [p] + free, active, busy);
  }

  /** The first free page leaves its list. */
  lemma {:induction false} TakeFree(n: nat, pages: map<nat, Page>, free: seq<nat>, active: seq<nat>, busy: seq<nat>)
    requires Cached(n, pages, free, active, busy, multiset{}) && free != []
    ensures Cached(n, pages, free[1..], active, busy, multiset{free[0]})
    ensures free[0] in pages && IsFree(pages[free[0]]) && free[0] !in active && free[0] !in busy
  {
    assert free == [free[0]] + free[1..];
    NotElsewhere(pages, free, active, busy, multiset{}, free[0]);
  }

  /** It joins the active list, as head if it is the only one. */
  lemma {:induction false} AddActive(n: nat, pages: map<nat, Page>, free: seq<nat>, active: seq<nat>, busy: seq<nat>,
                                     p: nat, pg: Page)
    requires Cached(n, pages, free, active, busy, multiset{p}) && p in pages
    requires PageOk(pg, n) && IsActive(pg, n, active == [])
    ensures Cached(n, pages[p := pg], free, active + [p], busy, multiset{})
  {
    NotElsewhere(pages, free, active, busy, multiset{p}, p);
    assert pages[p := pg].Keys == pages.Keys;
    assert Lists(pages[p := pg], n, free, active + [p], busy);
  }

  /** The full head becomes busy and its successor becomes the head. */
  lemma {:induction false} RetireHead(n: nat, pages: map<nat, Page>, free: seq<nat>, active: seq<nat>, busy: seq<nat>)
    requires Cached(n, pages, free, active, busy, multiset{}) && |active| > 1 && active[0] in pages && active[1] in pages
    requires pages[active[0]].ref == n
    ensures var h, s := active[0], active[1];
            && s != h
            && Cached(n, pages[h := pages[h].(active := false, busy := true)][s := pages[s].(active := true)],
                      free, active[1..], [h] + busy, multiset{})
  {
    var h, s := active[0], active[1];
    var pages' := pages[h := pages[h].(active := false, busy := true)][s := pages[s].(active := true)];
    assert PageOk(pages'[h], n) && PageOk(pages'[s], n);
    assert Pages(pages', n);
    hide Pages, PageOk, Lists;
    NotElsewhere(pages, free, active, busy, multiset{}, h);
    NotElsewhere(pages, free, active, busy, multiset{}, s);
    RetireLists(n, pages, free, active, busy);
    assert pages'.Keys == pages.Keys;
    assert multiset(active) == multiset{h} + multiset(active[1..]) by { assert active == [h] + active[1..]; }
    assert multiset([h] + busy) == multiset{h} + multiset(busy);
  }

  lemma {:induction false} RetireLists(n: nat, pages: map<nat, Page>, free: seq<nat>, active: seq<nat>, busy: seq<nat>)
    requires Lists(pages, n, free, active, busy) && |active| > 1 && active[0] in pages && active[1] in pages
    requires pages[active[0]].ref == n && active[0] != active[1]
    requires forall i | 1 < i < |active| :: active[i] != active[0] && active[i] != active[1]
    requires active[0] !in free && active[1] !in free && active[0] !in busy && active[1] !in busy
    ensures var h, s := active[0], active[1];
            Lists(pages[h := pages[h].(active := false, busy := true)][s := pages[s].(active := true)], n,
                  free, active[1..], [h] + busy)
  {
    var h, s := active[0], active[1];
    var pages' := pages[h := pages[h].(active := false, busy := true)][s := pages[s].(active := true)];
    forall i | 0 <= i < |active[1..]|
      ensures active[1..][i] in pages' && IsActive(pages'[active[1..][i]], n, i == 0)
    {
      assert active[1..][i] == active[i + 1];
    }
  }

  /** A page changes in place and still suits its list. */
  lemma {:induction false} InPlace(n: nat, pages: map<nat, Page>, free: seq<nat>, active: seq<nat>, busy: seq<nat>,
                                   p: nat, pg: Page)
    requires Cached(n, pages, free, active, busy, multiset{}) && p in active && PageOk(pg, n)
    requires IsActive(pg, n, active[0] == p)
    ensures Cached(n, pages[p := pg], free, active, busy, multiset{})
  {
    NotElsewhere(pages, free, active, busy, multiset{}, p);
    assert pages[p := pg].Keys == pages.Keys;
    assert Lists(pages[p := pg], n, free, active, busy);
  }

  /** A busy page got a block back and joins the end of the active list. */
  lemma {:induction false} Unbusy(n: nat, pages: map<nat, Page>, free: seq<nat>, active: seq<nat>, busy: seq<nat>,
                                  p: nat, pg: Page)
    requires Cached(n, pages, free, active, busy, multiset{}) && p in busy && active != []
    requires PageOk(pg, n) && IsActive(pg, n, false)
    ensures Cached(n, pages[p := pg], free, active + [p], Unlink(busy, p), multiset{})
  {
    NotElsewhere(pages, free, active, busy, multiset{}, p);
    UnlinkIs(busy, p);
    var rest := Unlink(busy, p);
    forall i | 0 <= i < |rest| ensures rest[i] in pages && rest[i] != p && IsBusy(pages[rest[i]], n) {
      UnlinkFrom(busy, p, i);
      assert rest[i] == p ==> multiset(rest)[p] > 0;
    }
    assert Cached(n, pages, free, active, rest, multiset{p});
    AddActive(n, pages, free, active, rest, p, pg);
  }

  /** An emptied page behind the head returns to the front of the free list. */
  lemma {:induction false} Empty(n: nat, pages: map<nat, Page>, free: seq<nat>, active: seq<nat>, busy: seq<nat>,
                                 p: nat, pg: Page)
    requires Cached(n, pages, free, active, busy, multiset{}) && p in active && active[0] != p
    requires PageOk(pg, n) && IsFree(pg)
    ensures Cached(n, pages[p := pg], [p] + free, Unlink(active, p), busy, multiset{})
    ensures Unlink(active, p) != []
  {
    NotElsewhere(pages, free, active, busy, multiset{}, p);
    UnlinkIs(active, p);
    var rest, pages' := Unlink(active, p), pages[p := pg];
    forall i | 0 <= i < |rest| ensures rest[i] in pages' && IsActive(pages'[rest[i]], n, i == 0) {
      UnlinkFrom(active, p, i);
      var j :| i <= j < |active| && active[j] == rest[i] && (i == 0 && active[0] != p ==> j == 0);
      assert rest[i] == p ==> multiset(rest)[p] > 0;
    }
    assert pages'.Keys == pages.Keys;
    assert multiset([p] + free) == multiset{p} + multiset(free);
    assert Lists(pages', n, [p] + free, rest, busy);
  }

  /** The first free page is given back to the page allocator. */
  lemma {:induction false} DropFree(n: nat, pages: map<nat, Page>, free: seq<nat>, active: seq<nat>, busy: seq<nat>)
    requires Cached(n, pages, free, active, busy, multiset{}) && free != []
    ensures Cached(n, pages - {free[0]}, free[1..], active, busy, multiset{})
  {
    var p := free[0];
    var pages' := pages - {p};
    TakeFree(n, pages, free, active, busy);
    NotElsewhere(pages, free, active, busy, multiset{}, p);
    assert multiset(pages'.Keys) == multiset(pages.Keys) - multiset{p};
    forall i | 0 <= i < |free[1..]| ensures free[1..][i] in pages' { assert free[1..][i] == free[i + 1]; }
    assert Lists(pages', n, free[1..], active, busy);
  }

  // ----- Where pages go -----

  /** How many pages freelist_get asks for and gets. */
  function Wanted(free: seq<nat>, freeMin: nat, target: nat, available: nat): (k: nat)
    ensures k <= available
  {
    var need := if |free| <= freeMin && |free| < target then target - |free| else 0;
    if need <= available then need else available
  }

  /** The first `k` pages of a supply, the last one in front. */
  function Newest(supply: seq<Raw>, k: nat): (r: seq<nat>)
    requires k <= |supply|
    ensures |r| == k
  {
    if k == 0 then [] else [supply[k - 1].page] + Newest(supply, k - 1)
  }

  /** `all` is the free list once freelist_get has refilled it from a supply, of which `rest` is left. */
  ghost predicate Refilled(free: seq<nat>, freeMin: nat, target: nat, supply: seq<Raw>, all: seq<nat>, rest: seq<Raw>) {
    var k := Wanted(free, freeMin, target, |supply|);
    all == Newest(supply, k) + free && rest == supply[k..]
  }

  lemma {:induction false} RefilledEmpty(free: seq<nat>, freeMin: nat, target: nat, supply: seq<Raw>,
                                         all: seq<nat>, rest: seq<Raw>)
    requires Refilled(free, freeMin, target, supply, all, rest)
    ensures all == [] <==> free == [] && (supply == [] || target == 0)
    ensures all == [] ==> all == free
  {
  }

  /** What put_block does with the page `p` that got a block back. */
  ghost predicate Moved(was: map<nat, Page>, p: nat, free: seq<nat>, active: seq<nat>, busy: seq<nat>,
                        free': seq<nat>, active': seq<nat>, busy': seq<nat>)
  {
    if p in busy then
      active' == active + [p] && busy' == Unlink(busy, p) && free' == free
    else if p in was && was[p].ref == 1 && active != [] && active[0] != p then
      free' == [p] + free && active' == Unlink(active, p) && busy' == busy
    else free' == free && active' == active && busy' == busy
  }

  /** Behind the head of the active list every page has live blocks, unless pages have a single block. */
  ghost predicate Tidy(pages: map<nat, Page>, n: nat, active: seq<nat>) {
    n != 1 ==> forall i | 1 <= i < |active| :: active[i] in pages && pages[active[i]].ref > 0
  }

  /** So an empty page is free, or is the head: kcm_release can give it back. */
  lemma {:induction false} EmptyPagesAreFree(n: nat, pages: map<nat, Page>, free: seq<nat>, active: seq<nat>,
                                             busy: seq<nat>, p: nat)
    requires Cached(n, pages, free, active, busy, multiset{}) && Tidy(pages, n, active) && n > 1
    requires p in pages && pages[p].ref == 0
    ensures p in free || (active != [] && p == active[0])
  {
    OnLists(n, pages, free, active, busy, multiset{}, p);
  }

  lemma {:induction false} AllActive(n: nat, pages: map<nat, Page>, free: seq<nat>, active: seq<nat>, busy: seq<nat>)
    requires Cached(n, pages, free, active, busy, multiset{})
    ensures forall i | 0 <= i < |active| :: active[i] in pages
  {
  }

  lemma {:induction false} TidyRetired(was: map<nat, Page>, pages: map<nat, Page>, n: nat,
                                       active: seq<nat>, active': seq<nat>)
    requires Tidy(was, n, active) && SameLive(was, pages, n)
    requires active' == active || (|active| > 1 && active' == active[1..]) || |active'| == 1
    requires forall i | 0 <= i < |active'| :: active'[i] in pages
    ensures Tidy(pages, n, active')
  {
  }

  lemma {:induction false} TidyMoved(was: map<nat, Page>, pages: map<nat, Page>, n: nat, p: nat,
                                     free: seq<nat>, active: seq<nat>,
                                     busy: seq<nat>, free': seq<nat>, active': seq<nat>, busy': seq<nat>)
    requires Tidy(was, n, active) && Moved(was, p, free, active, busy, free', active', busy') && p in was && p in pages
    requires forall q | q in was && q != p :: q in pages && pages[q].ref == was[q].ref
    requires pages[p].ref == was[p].ref - 1 >= 0 && active != [] && (p in busy ==> was[p].ref == n)
    requires multiset(active)[p] <= 1 && (p in active || p in busy)
    ensures Tidy(pages, n, active')
  {
    if n != 1 {
      forall i | 1 <= i < |active'| ensures active'[i] in pages && pages[active'[i]].ref > 0 {
        if active[0] == p && active'[i] == p && i < |active| { TwiceIn(active, 0, i); }
        if p !in busy && was[p].ref == 1 && active[0] != p {
          UnlinkFrom(active, p, i);
          UnlinkIs(active, p);
          assert active'[i] == p ==> multiset(active')[p] > 0;
        }
      }
    }
  }

  class Cache {
    var n: nat            // blocks_nr
    var freeMin: nat
    var freeMax: nat
    var freeNr: nat
    var activeNr: nat
    var busyNr: nat
    var free: seq<nat>
    var active: seq<nat>
    var busy: seq<nat>
    var pages: map<nat, Page>

    /** The invariant, with the pages of `out` on no list. */
    ghost predicate Inv(out: multiset<nat>)
      reads this
    {
      && freeNr == |free| && activeNr == |active| && busyNr == |busy|
      && Cached(n, pages, free, active, busy, out)
    }

    ghost predicate Sound()
      reads this
    {
      Inv(multiset{}) && active != []
    }

    ghost predicate Valid()
      reads this
    {
      Sound() && Tidy(pages, n, active)
    }

    function Target(): nat
      reads this
    {
      (freeMin + freeMax) / 2
    }

    constructor ()
    {
      n, freeMin, freeMax, freeNr, activeNr, busyNr := 0, 0, 0, 0, 0, 0;
      free, active, busy, pages := [], [], [], map[];
    }

    /** kcm_init; the block count comes from the geometry of a page. */
    method Init(blocks: nat, lowWater: nat, highWater: nat, supply: seq<Raw>) returns (ok: bool, rest: seq<Raw>)
      requires blocks <= BITMAP_BITS && Fresh(supply, {})
      modifies this
      ensures n == blocks && freeMin == lowWater && freeMax == highWater
      ensures ok <==> supply != [] && (lowWater + highWater) / 2 != 0
      ensures ok ==> Valid() && Live(pages, n) == {} && Fresh(rest, pages.Keys)
      ensures ok ==> Refilled([], freeMin, Target(), supply, active + free, rest) && |active| == 1 && busy == []
    {
      hide Lists, PageOk, Refilled, SameLive, Tidy;
      n, freeMin, freeMax, freeNr, activeNr, busyNr := blocks, lowWater, highWater, 0, 0, 0;
      free, active, busy, pages := [], [], [], map[];
      assert Lists(pages, n, [], [], []) by { NoLists(pages, n); }
      var p;
      p, rest := FreelistGet(supply);
      if p.None? { return false, rest; }
      SameLiveIs(map[], pages, n);
      StartWith(p.value);
      ok := true;
    }

    /** The end of kcm_init: the first page becomes the active head. */
    method StartWith(p: nat)
      requires Inv(multiset{p}) && active == [] && p in pages && IsFree(pages[p])
      modifies this`pages, this`active, this`activeNr
      ensures Valid() && Live(pages, n) == old(Live(pages, n)) && active == [p] && pages.Keys == old(pages).Keys
    {
      hide Lists, PageOk;
      ghost var was := pages;
      NewHead(pages[p], n);
      AddActive(n, pages, free, active, busy, p, pages[p].(active := true));
      pages := pages[p := pages[p].(active := true)];
      assert [p] + active == active + [p];
      active := [p] + active;
      activeNr := activeNr + 1;
      SameLiveIs(was, pages, n);
    }

    /** get_block */
    method GetBlock(p: nat) returns (b: Option<nat>)
      requires p in pages && Pages(pages, n)
      modifies this`pages
      ensures pages == old(pages)[p := Take(old(pages)[p], n).0] && b == Take(old(pages)[p], n).1
    {
      var pg := pages[p];
      if pg.cur >= n { return None; }
      Bits.FirstIs(pg.bits, true, pg.cur);
      var k := Bits.First(pg.bits, true, pg.cur);
      if k == -1 { return None; }
      if k >= n { return None; }
      b := Some(k);
      pages := pages[p := pg.(bits := pg.bits[k := false], cur := k + 1, ref := pg.ref + 1)];
    }

    /** freelist_populate; false if page_alloc failed. */
    method Populate(supply: seq<Raw>) returns (ok: bool, rest: seq<Raw>)
      requires Inv(multiset{}) && Fresh(supply, pages.Keys)
      modifies this`pages, this`free, this`freeNr
      ensures Inv(multiset{}) && Fresh(rest, pages.Keys)
      ensures ok <==> supply != []
      ensures !ok ==> rest == supply && pages == old(pages) && free == old(free)
      ensures ok ==> rest == supply[1..] && free == [supply[0].page] + old(free)
      ensures ok ==> pages == old(pages)[supply[0].page := NewPage(supply[0].junk, n)]
    {
      if supply == [] { return false, supply; }
      var raw := supply[0];
      NewPageIs(raw.junk, n);
      AddNew(n, pages, free, active, busy, raw.page, NewPage(raw.junk, n));
      pages := pages[raw.page := NewPage(raw.junk, n)];
      free := [raw.page] + free;
      freeNr := freeNr + 1;
      ok, rest := true, supply[1..];
    }

    /** The refill of freelist_get: below the low watermark, up to the target or to what page_alloc gives. */
    method Refill(supply: seq<Raw>) returns (rest: seq<Raw>)
      requires Inv(multiset{}) && Fresh(supply, pages.Keys)
      modifies this`pages, this`free, this`freeNr
      ensures Inv(multiset{}) && Fresh(rest, pages.Keys) && Refilled(old(free), freeMin, Target(), supply, free, rest)
      ensures SameLive(old(pages), pages, n) && old(pages).Keys <= pages.Keys
      ensures free == [] ==> pages == old(pages)
    {
      hide Cached, SameLive, Fresh;
      rest := supply;
      SameLiveTrans(pages, pages, pages, n);
      ghost var i := 0;
      if freeNr <= freeMin {
        while freeNr < (freeMin + freeMax) / 2
          invariant Inv(multiset{}) && Fresh(rest, pages.Keys) && SameLive(old(pages), pages, n)
          invariant old(pages).Keys <= pages.Keys && (i == 0 ==> pages == old(pages))
          invariant 0 <= i <= |supply| && (i == 0 || |old(free)| + i <= Target())
          invariant rest == supply[i..] && free == Newest(supply, i) + old(free)
          decreases Target() - freeNr
        {
          ghost var was := pages;
          var ok;
          ok, rest := PopulateOne(rest);
          if !ok { break; }
          SameLiveGrow(old(pages), was, pages, n);
          i := i + 1;
        }
      }
    }

    /** freelist_populate, which makes no block live. */
    method PopulateOne(supply: seq<Raw>) returns (ok: bool, rest: seq<Raw>)
      requires Inv(multiset{}) && Fresh(supply, pages.Keys)
      modifies this`pages, this`free, this`freeNr
      ensures Inv(multiset{}) && Fresh(rest, pages.Keys) && (ok <==> supply != [])
      ensures !ok ==> rest == supply && pages == old(pages) && free == old(free)
      ensures ok ==> rest == supply[1..] && free == [supply[0].page] + old(free)
      ensures SameLive(old(pages), pages, n) && old(pages).Keys <= pages.Keys
    {
      hide Pages, Lists, Shared;
      if supply != [] { NewPageIs(supply[0].junk, n); }
      ok, rest := Populate(supply);
    }

    /** freelist_get */
    method FreelistGet(supply: seq<Raw>) returns (p: Option<nat>, rest: seq<Raw>)
      requires Inv(multiset{}) && Fresh(supply, pages.Keys)
      modifies this`pages, this`free, this`freeNr
      ensures p.None? <==> old(free) == [] && (supply == [] || Target() == 0)
      ensures p.None? ==> Inv(multiset{}) && pages == old(pages) && free == []
      ensures p.Some? ==> p.value in pages && IsFree(pages[p.value]) && p.value !in active && p.value !in busy
      ensures p.Some? ==> Inv(multiset{p.value}) && Refilled(old(free), freeMin, Target(), supply, [p.value] + free, rest)
      ensures Fresh(rest, pages.Keys) && SameLive(old(pages), pages, n) && old(pages).Keys <= pages.Keys
    {
      hide Cached, SameLive, Fresh, Refilled;
      rest := Refill(supply);
      RefilledEmpty(old(free), freeMin, Target(), supply, free, rest);
      if freeNr == 0 { return None, rest; }
      TakeFree(n, pages, free, active, busy);
      assert [free[0]] + free[1..] == free;
      p := Some(free[0]);
      free := free[1..];
      freeNr := freeNr - 1;
    }

    /**
     compute_active_page: the next active page becomes the head, or else a free page does;
     the old head becomes busy.  With no page to be had nothing changes.
     */
    method ComputeActive(supply: seq<Raw>) returns (p: nat, rest: seq<Raw>)
      requires Sound() && Fresh(supply, pages.Keys) && active[0] in pages && pages[active[0]].ref == n
      modifies this`pages, this`free, this`freeNr, this`active, this`activeNr, this`busy, this`busyNr
      ensures Sound() && p == active[0] && p in pages && SameLive(old(pages), pages, n) && Fresh(rest, pages.Keys)
      ensures p == old(active[0]) <==> old(|active| == 1 && free == []) && (supply == [] || Target() == 0)
      ensures p != old(active[0]) && n > 0 ==> pages[p].ref < n
      ensures p == old(active[0]) ==> pages == old(pages) && active == old(active) && busy == old(busy) && free == []
      ensures p != old(active[0]) ==> busy == [old(active[0])] + old(busy)
      ensures old(|active|) > 1 ==> active == old(active)[1..] && free == old(free) && rest == supply
      ensures old(|active|) == 1 && p != old(active[0]) ==>
                active == [p] && Refilled(old(free), freeMin, Target(), supply, [p] + free, rest)
    {
      hide Pages, Lists, Shared, SameLive, Refilled;
      var head := active[0];
      OnLists(n, pages, free, active, busy, multiset{}, head);
      rest := supply;
      SameLiveTrans(pages, pages, pages, n);
      if |active| == 1 {
        var ok;
        ok, rest := Extend(supply);
        if !ok { return head, rest; }
      }
      ghost var mid := pages;
      p := Retire();
      SameLiveTrans(old(pages), mid, pages, n);
    }

    /** The part of compute_active_page that appends a free page to the active list. */
    method Extend(supply: seq<Raw>) returns (ok: bool, rest: seq<Raw>)
      requires Sound() && Fresh(supply, pages.Keys)
      modifies this`pages, this`free, this`freeNr, this`active, this`activeNr
      ensures Sound() && SameLive(old(pages), pages, n) && old(pages).Keys <= pages.Keys && Fresh(rest, pages.Keys)
      ensures !ok <==> old(free) == [] && (supply == [] || Target() == 0)
      ensures !ok ==> pages == old(pages) && active == old(active) && free == []
      ensures ok ==> |active| == old(|active|) + 1 && active[..|active| - 1] == old(active)
      ensures ok ==> active[0] in pages && active[0] in old(pages) && pages[active[0]].ref == old(pages)[active[0]].ref
      ensures ok ==> Refilled(old(free), freeMin, Target(), supply, [active[|active| - 1]] + free, rest)
    {
      hide Pages, Lists, Shared, SameLive, Refilled;
      OnLists(n, pages, free, active, busy, multiset{}, active[0]);
      var q;
      q, rest := FreelistGet(supply);
      if q.None? { return false, rest; }
      var p := q.value;
      OnLists(n, pages, free, active, busy, multiset{p}, p);
      OnLists(n, pages, free, active, busy, multiset{p}, active[0]);
      SameLiveRef(old(pages), pages, n, active[0]);
      AddActive(n, pages, free, active, busy, p, pages[p]);
      assert pages[p := pages[p]] == pages;
      active := active + [p];
      activeNr := activeNr + 1;
      ok := true;
    }

    /** The part that retires the full head. */
    method Retire() returns (p: nat)
      requires Sound() && |active| > 1 && active[0] in pages && pages[active[0]].ref == n
      modifies this`pages, this`active, this`activeNr, this`busy, this`busyNr
      ensures Sound() && SameLive(old(pages), pages, n) && pages.Keys == old(pages).Keys
      ensures p == active[0] && p in pages && active == old(active)[1..] && busy == [old(active[0])] + old(busy)
      ensures p != old(active[0]) && (n > 0 ==> pages[p].ref < n)
    {
      hide Pages, Lists, Shared;
      var head := active[0];
      p := active[1];
      OnLists(n, pages, free, active, busy, multiset{}, p);
      RetireHead(n, pages, free, active, busy);
      pages := pages[head := pages[head].(active := false, busy := true)];
      active := active[1..];
      activeNr := activeNr - 1;
      busy := [head] + busy;
      busyNr := busyNr + 1;
      pages := pages[p := pages[p].(active := true)];
    }

    /**
     kcm_alloc: the lowest free block of the active head, which is the old one while that
     has room; or NULL if there is none and none can be had.
     */
    method Alloc(supply: seq<Raw>) returns (b: Option<Block>, rest: seq<Raw>)
      requires Valid() && Fresh(supply, pages.Keys)
      modifies this`pages, this`free, this`freeNr, this`active, this`activeNr, this`busy, this`busyNr
      ensures Valid() && Fresh(rest, pages.Keys)
      ensures b.Some? ==> b.value !in old(Live(pages, n)) && b.value.index < n
                          && Live(pages, n) == old(Live(pages, n)) + {b.value}
      ensures b.None? ==> Live(pages, n) == old(Live(pages, n))
      ensures b.None? <==> n == 0 || (old(Full(pages, n)) && (supply == [] || Target() == 0))
      ensures b.Some? ==> b.value.page == active[0]
                          && forall j | 0 <= j < b.value.index :: Block(active[0], j) in Live(pages, n)
      ensures old(active[0] in pages && pages[active[0]].ref < n) ==>
                active == old(active) && busy == old(busy) && free == old(free) && rest == supply
      ensures b.Some? && old(active[0] in pages && pages[active[0]].ref == n) ==>
                && busy == [old(active[0])] + old(busy)
                && (if old(|active|) > 1 then active == old(active)[1..] && free == old(free) && rest == supply
                    else |active| == 1 && Refilled(old(free), freeMin, Target(), supply, active + free, rest))
    {
      hide Pages, Lists, Shared, SameLive, Live, Full, PageOk, Tidy, Refilled;
      NoRoom(n, pages, free, active, busy);
      OnLists(n, pages, free, active, busy, multiset{}, active[0]);
      rest := supply;
      var head := active[0];
      b := TakeFrom(head);
      if b.None? {
        ghost var was := pages;
        var p;
        p, rest := ComputeActive(supply);
        SameLiveIs(old(pages), pages, n);
        AllActive(n, pages, free, active, busy);
        TidyRetired(was, pages, n, old(active), active);
        if p != head { b := TakeFrom(p); }
      }
    }

    /** get_block on the active head, which may be full. */
    method TakeFrom(p: nat) returns (b: Option<Block>)
      requires Valid() && p == active[0]
      modifies this`pages
      ensures Valid() && p in pages && p in old(pages) && (b.None? <==> old(pages)[p].ref == n)
              && pages.Keys == old(pages).Keys
      ensures b.None? ==> pages == old(pages)
      ensures b.Some? ==> b.value !in old(Live(pages, n)) && b.value.index < n && b.value.page == p
                          && Live(pages, n) == old(Live(pages, n)) + {b.value}
      ensures b.Some? ==> forall j | 0 <= j < b.value.index :: Block(p, j) in Live(pages, n)
      ensures n == 0 ==> b.None?
    {
      hide Pages, Lists, Shared, Live, PageOk;
      OnLists(n, pages, free, active, busy, multiset{}, p);
      NotElsewhere(pages, free, active, busy, multiset{}, p);
      ghost var was, pg := pages, Take(pages[p], n).0;
      TakeIs(pages[p], n);
      var k := GetBlock(p);
      if k.Some? {
        LiveAfterTake(was, n, p, pg, k.value);
        InPlace(n, was, free, active, busy, p, pg);
        b := Some(Block(p, k.value));
        forall j | 0 <= j < k.value ensures Block(p, j) in Live(pages, n) { LiveIs(pages, n, Block(p, j)); }
      } else {
        assert pages == was;
        b := None;
      }
    }

    /** kcm_free of NULL or of a block that is handed out. */
    method Free(b: Option<Block>)
      requires Valid() && (b.Some? ==> b.value in Live(pages, n))
      modifies this`pages, this`free, this`freeNr, this`active, this`activeNr, this`busy, this`busyNr
      ensures Valid()
      ensures Live(pages, n) == old(Live(pages, n)) - (if b.Some? then {b.value} else {})
      ensures if b.Some? then Moved(old(pages), b.value.page, old(free), old(active), old(busy), free, active, busy)
              else free == old(free) && active == old(active) && busy == old(busy)
    {
      hide Live, Moved, Tidy;
      if b.None? { return; }
      PutBlock(b.value);
    }

    /** put_block: the block is free again, and the page is on the list where it belongs. */
    method PutBlock(b: Block)
      requires Valid() && b in Live(pages, n)
      modifies this`pages, this`free, this`freeNr, this`active, this`activeNr, this`busy, this`busyNr
      ensures Valid() && Live(pages, n) == old(Live(pages, n)) - {b}
      ensures b.page in old(pages) && b.index < |old(pages)[b.page].bits|
      ensures pages == old(pages)[b.page := Give(old(pages)[b.page], b.index).(busy := false)]
      ensures Moved(old(pages), b.page, old(free), old(active), old(busy), free, active, busy)
    {
      hide Pages, Lists, Shared, Live, PageOk;
      var p, k := b.page, b.index;
      LiveIs(pages, n, b);
      OnLists(n, pages, free, active, busy, multiset{}, p);
      GiveIs(pages[p], n, k);
      NotElsewhere(pages, free, active, busy, multiset{}, p);
      ghost var was, pg := pages, Give(pages[p], k);
      LiveAfterGive(was, n, p, pg, k);
      LiveAfterGive(was, n, p, pg.(busy := false), k);
      pages := pages[p := Give(pages[p], k)];
      if pages[p].busy {
        Reactivate(p, was, pg);
      } else if !pages[p].active && pages[p].ref == 0 {
        Retreat(p, was, pg);
      } else {
        InPlace(n, was, free, active, busy, p, pg);
      }
      TidyMoved(was, pages, n, p, old(free), old(active), old(busy), free, active, busy);
    }

    /** The part of put_block for a busy page. */
    method Reactivate(p: nat, ghost was: map<nat, Page>, ghost pg: Page)
      requires freeNr == |free| && activeNr == |active| && busyNr == |busy| && active != []
      requires Cached(n, was, free, active, busy, multiset{}) && p in busy && pages == was[p := pg]
      requires PageOk(pg.(busy := false), n) && IsActive(pg.(busy := false), n, false)
      modifies this`pages, this`active, this`activeNr, this`busy, this`busyNr
      ensures Sound() && pages == was[p := pg.(busy := false)]
      ensures active == old(active) + [p] && busy == Unlink(old(busy), p)
    {
      hide Pages, Lists, Shared, PageOk;
      Unbusy(n, was, free, active, busy, p, pg.(busy := false));
      UnlinkIs(busy, p);
      pages := pages[p := pages[p].(busy := false)];
      assert pages == was[p := pg.(busy := false)];
      busy := Unlink(busy, p);
      busyNr := busyNr - 1;
      active := active + [p];
      activeNr := activeNr + 1;
    }

    /** The part of put_block for an emptied page behind the head. */
    method Retreat(p: nat, ghost was: map<nat, Page>, ghost pg: Page)
      requires freeNr == |free| && activeNr == |active| && busyNr == |busy|
      requires Cached(n, was, free, active, busy, multiset{}) && p in active && active[0] != p && pages == was[p := pg]
      requires PageOk(pg, n) && IsFree(pg)
      modifies this`free, this`freeNr, this`active, this`activeNr
      ensures Sound() && active == Unlink(old(active), p) && free == [p] + old(free)
    {
      hide Pages, Lists, Shared, PageOk;
      Empty(n, was, free, active, busy, p, pg);
      UnlinkIs(active, p);
      active := Unlink(active, p);
      free := [p] + free;
      freeNr := freeNr + 1;
      activeNr := activeNr - 1;
    }

    /** kcm_release: free pages above the low watermark go back to the page allocator. */
    method Release() returns (freed: seq<nat>)
      requires Valid()
      modifies this`pages, this`free, this`freeNr
      ensures Valid() && Live(pages, n) == old(Live(pages, n))
      ensures freed + free == old(free) && |free| == if old(|free|) <= freeMin then old(|free|) else freeMin
      ensures forall p | p in freed :: p !in pages
    {
      hide Pages, Lists, Shared, Live;
      freed := [];
      while freeNr > freeMin
        invariant Valid() && SameLive(old(pages), pages, n)
        invariant freed + free == old(free)
        invariant |free| >= freeMin || |free| == old(|free|)
        invariant forall p | p in freed :: p !in pages
        decreases |free|
      {
        DropFree(n, pages, free, active, busy);
        OnLists(n, pages, free, active, busy, multiset{}, free[0]);
        pages := pages - {free[0]};
        freed := freed + [free[0]];
        free := free[1..];
        freeNr := freeNr - 1;
      }
      SameLiveIs(old(pages), pages, n);
    }
  }

  lemma {:induction false} NoLiveNoRef(pages: map<nat, Page>, n: nat, p: nat)
    requires Pages(pages, n) && p in pages && forall k | 0 <= k < n :: Block(p, k) !in Live(pages, n)
    ensures pages[p].ref == 0
  {
    assert PageOk(pages[p], n);
    TakenAll(pages[p].bits, n);
    forall k | 0 <= k < n ensures pages[p].bits[k] { LiveIs(pages, n, Block(p, k)); }
  }

  lemma {:induction false} AllLiveFull(pages: map<nat, Page>, n: nat, p: nat)
    requires Pages(pages, n) && p in pages && forall k | 0 <= k < n :: Block(p, k) in Live(pages, n)
    ensures pages[p].ref == n
  {
    assert PageOk(pages[p], n);
    TakenAll(pages[p].bits, n);
    forall k | 0 <= k < n ensures !pages[p].bits[k] { LiveIs(pages, n, Block(p, k)); }
  }

  /**
   Pages of a single block are the exception of Tidy: put_block takes a busy page back to the
   active list and does not look whether it is empty.  Two allocations and a release leave
   an empty page that is not free.
   */
  method EmptyPageNotFree(supply: seq<Raw>) returns (cache: Cache, p: nat)
    requires Fresh(supply, {}) && |supply| >= 2
    ensures cache.Valid() && cache.n == 1 && p in cache.pages && cache.pages[p].ref == 0
    ensures p !in cache.free && cache.active != [] && p != cache.active[0]
  {
    hide Pages, Lists, Shared, Live, PageOk, Tidy, Fresh;
    var head;
    cache, p, head := TwoFullPages(supply);
    cache.Free(Some(Block(p, 0)));
    assert cache.active == [head] + [p];
    assert cache.active[1] == p;
    AllActive(1, cache.pages, cache.free, cache.active, cache.busy);
    NotElsewhere(cache.pages, cache.free, cache.active, cache.busy, multiset{}, p);
    NoLiveNoRef(cache.pages, 1, p);
  }

  /** Two pages of a single block, both allocated. */
  method TwoFullPages(supply: seq<Raw>) returns (cache: Cache, p: nat, head: nat)
    requires Fresh(supply, {}) && |supply| >= 2
    ensures fresh(cache) && cache.Valid() && cache.n == 1 && p != head && cache.active == [head] && p in cache.busy
    ensures Live(cache.pages, 1) == {Block(p, 0), Block(head, 0)}
  {
    hide Pages, Lists, Shared, Live, PageOk, Tidy, Fresh;
    cache := new Cache();
    var ok, rest := cache.Init(1, 0, 2, supply);
    assert rest == supply[1..] && cache.free == [] && rest != [];
    p := cache.active[0];
    AllActive(1, cache.pages, cache.free, cache.active, cache.busy);
    NoLiveNoRef(cache.pages, 1, p);
    var a: Option<Block>, b: Option<Block>;
    a, rest := cache.Alloc(rest);
    assert a == Some(Block(p, 0)) && cache.active == [p];
    AllActive(1, cache.pages, cache.free, cache.active, cache.busy);
    AllLiveFull(cache.pages, 1, p);
    b, rest := cache.Alloc(rest);
    head := b.value.page;
    assert b.value == Block(head, 0) && head != p && cache.busy[0] == p;
  }

  lemma {:induction false} SameLiveIs(pages: map<nat, Page>, pages': map<nat, Page>, n: nat)
    requires Pages(pages, n) && Pages(pages', n) && SameLive(pages, pages', n)
    ensures Live(pages, n) == Live(pages', n)
  {
    forall p, k | p in pages && 0 <= k < n && !pages[p].bits[k] ensures p in pages' {
      TakenAll(pages[p].bits, n);
    }
    forall p, k | p in pages' && 0 <= k < n && !pages'[p].bits[k] ensures p in pages {
      TakenAll(pages'[p].bits, n);
    }
  }

  lemma {:induction false} SameLiveTrans(a: map<nat, Page>, b: map<nat, Page>, c: map<nat, Page>, n: nat)
    ensures SameLive(a, a, n)
    ensures SameLive(a, b, n) && SameLive(b, c, n) && a.Keys <= b.Keys == c.Keys ==> SameLive(a, c, n)
  {
  }

  lemma {:induction false} SameLiveGrow(a: map<nat, Page>, b: map<nat, Page>, c: map<nat, Page>, n: nat)
    requires SameLive(a, b, n) && SameLive(b, c, n) && a.Keys <= b.Keys <= c.Keys
    ensures SameLive(a, c, n)
  {
  }

  lemma {:induction false} SameLiveRef(a: map<nat, Page>, b: map<nat, Page>, n: nat, p: nat)
    requires SameLive(a, b, n) && p in a && p in b
    ensures a[p].ref == b[p].ref
  {
  }

  lemma {:induction false} LiveIs(pages: map<nat, Page>, n: nat, b: Block)
    requires Pages(pages, n)
    ensures b in Live(pages, n) <==> b.page in pages && b.index < n <= |pages[b.page].bits| && !pages[b.page].bits[b.index]
  {
  }

  lemma {:induction false} LiveAfterTake(pages: map<nat, Page>, n: nat, p: nat, pg: Page, k: nat)
    requires Pages(pages, n) && p in pages && PageOk(pg, n) && k < n
    requires pages[p].bits[k] && pg.bits == pages[p].bits[k := false]
    ensures Pages(pages[p := pg], n) && Block(p, k) !in Live(pages, n)
    ensures Live(pages[p := pg], n) == Live(pages, n) + {Block(p, k)}
  {
  }

  lemma {:induction false} LiveAfterGive(pages: map<nat, Page>, n: nat, p: nat, pg: Page, k: nat)
    requires Pages(pages, n) && p in pages && PageOk(pg, n) && k < n
    requires !pages[p].bits[k] && pg.bits == pages[p].bits[k := true]
    ensures Pages(pages[p := pg], n) && Live(pages[p := pg], n) == Live(pages, n) - {Block(p, k)}
  {
  }

  /** No block changes hands when pages that are all free come or go. */
  ghost predicate SameLive(pages: map<nat, Page>, pages': map<nat, Page>, n: nat) {
    && (forall p | p in pages && p in pages' :: pages[p].bits == pages'[p].bits && pages[p].ref == pages'[p].ref)
    && (forall p | p in pages && p !in pages' :: pages[p].ref == 0)
    && (forall p | p in pages' && p !in pages :: pages'[p].ref == 0)
  }
}
