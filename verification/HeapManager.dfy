/**
 The next-fit heap of kernel/mm/heap_manager.c.  `mem` holds the block headers by
 address, stale ones included; `blocks` are the addresses at which blocks start
 now.  Addresses and sizes are 32-bit unsigned.
 */
module HeapManager {
  import opened ModArith
  import opened Words

  const LINE: nat := 64        // CONFIG_CACHE_LINE_SIZE
  const HEADER: nat := 8       // sizeof(block_info_t)
  const MAX_REQUEST: nat := WORD - LINE - HEADER
  const SIZE_LIMIT: nat := 0x8000_0000  // the size field has 31 bits

  datatype Header = Header(busy: bool, size: nat)

  type Mem = map<nat, Header>

  /** ARROUND_UP(size + sizeof(*current), CACHE_LINE_SIZE) in 32 bits. */
  function EffectiveSize(size: nat): nat {
    RoundUp((size + HEADER) % WORD, LINE) % WORD
  }

  function Sub32(a: nat, b: nat): nat { (a - b) % WORD }

  /** A request is rounded up to whole lines, unless it is so large that the sum wraps. */
  lemma {:induction false} EffectiveSizeExact(size: nat)
    requires size < WORD
    ensures EffectiveSize(size) % LINE == 0
    ensures EffectiveSize(size) >= size + HEADER <==> size <= MAX_REQUEST
    ensures size <= MAX_REQUEST ==> size + HEADER <= EffectiveSize(size) < size + HEADER + LINE
    ensures EffectiveSize(size) == 0 <==> MAX_REQUEST < size <= WORD - HEADER
  {
    var v := (size + HEADER) % WORD;
    assert v == if size + HEADER < WORD then size + HEADER else size + HEADER - WORD;
    RoundUpAligned(v, LINE);
    hide RoundUp;
    var r := RoundUp(v, LINE);
    assert r <= WORD;
    if r == WORD { assert EffectiveSize(size) == 0; } else { assert EffectiveSize(size) == r; }
  }

  /** The last request that is still served as it should be, and the first that asks for nothing. */
  lemma {:induction false} WrappedRequest()
    ensures EffectiveSize(MAX_REQUEST) == WORD - LINE && EffectiveSize(MAX_REQUEST + 1) == 0
  {
  }

  // ----- The tiling -----

  predicate Lines(n: int) { n % LINE == 0 }

  lemma {:induction false} LinesSum(a: int, b: int)
    requires Lines(a)
    ensures Lines(b) <==> Lines(a + b)
  {
  }

  /** The heap; `blocks` are the addresses at which blocks start. */
  datatype State = State(start: nat, limit: nat, next: nat, mem: Mem, blocks: set<nat>)

  /** A block lies inside the heap, starts at a whole line, and is followed by a block or the end. */
  ghost predicate BlockOk(h: State, b: nat) {
    && b in h.mem && h.start <= b && Lines(b - h.start) && 0 < h.mem[b].size && b + h.mem[b].size <= h.limit
    && (b + h.mem[b].size == h.limit || b + h.mem[b].size in h.blocks)
  }

  /** `b` ends before `c` starts. */
  ghost predicate Before(h: State, b: nat, c: nat) {
    b in h.mem && b + h.mem[b].size <= c
  }

  ghost predicate Tiled(h: State) {
    && h.start in h.blocks && h.blocks <= h.mem.Keys
    && (forall b {:trigger BlockOk(h, b)} | b in h.blocks :: BlockOk(h, b))
    && (forall b, c {:trigger Before(h, b, c)} | b in h.blocks && c in h.blocks && b < c :: Before(h, b, c))
  }

  ghost predicate Inv(h: State) {
    h.limit < WORD && h.limit - h.start < SIZE_LIMIT && Tiled(h) && h.next in h.blocks
  }

  /** Every address of the heap belongs to exactly one block. */
  lemma {:induction false} TilesExactly(h: State, x: nat)
    requires Tiled(h) && h.start <= x < h.limit
    ensures exists b :: b in h.blocks && Inside(h, b, x)
    ensures forall b, c | b in h.blocks && c in h.blocks && Inside(h, b, x) && Inside(h, c, x) :: b == c
  {
    var b := BlockAt(h, h.start, x);
    forall b, c | b in h.blocks && c in h.blocks && Inside(h, b, x) && Inside(h, c, x) ensures b == c {
      assert b < c ==> Before(h, b, c);
      assert c < b ==> Before(h, c, b);
    }
  }

  /** Blocks are made of whole lines, all of them if the heap is, and all but the last one otherwise. */
  lemma {:induction false} WholeLines(h: State, b: nat)
    requires Tiled(h) && b in h.blocks && b in h.mem
    ensures b + h.mem[b].size < h.limit || Lines(h.limit - h.start) ==> Lines(h.mem[b].size)
  {
    hide Lines;
    assert BlockOk(h, b);
    var c := b + h.mem[b].size;
    LinesSum(b - h.start, h.mem[b].size);
    if c < h.limit { assert BlockOk(h, c); }
  }

  ghost predicate Inside(h: State, b: nat, x: nat) {
    b in h.mem && b <= x < b + h.mem[b].size
  }

  lemma {:induction false} BlockAt(h: State, from: nat, x: nat) returns (b: nat)
    requires Tiled(h) && from in h.blocks && from <= x < h.limit
    ensures b in h.blocks && Inside(h, b, x)
    decreases h.limit - from
  {
    assert BlockOk(h, from);
    if x < from + h.mem[from].size {
      b := from;
    } else {
      b := BlockAt(h, from + h.mem[from].size, x);
    }
  }

  /** The blocks in use. */
  ghost function Busy(h: State): set<nat> {
    set b | b in h.blocks && b in h.mem && h.mem[b].busy
  }

  // ----- Allocation -----

  predicate Suits(h: State, b: nat, eff: nat) {
    b in h.mem && !h.mem[b].busy && h.mem[b].size >= eff
  }

  /** Where the search for `eff` bytes begins. */
  function SearchFrom(h: State, eff: nat): nat {
    if h.next > Sub32(h.limit, eff) then h.start else h.next
  }

  /** The first suitable block, in address order, from where the search begins. */
  ghost predicate FirstFit(h: State, eff: nat, b: nat) {
    && b in h.blocks && SearchFrom(h, eff) <= b && Suits(h, b, eff)
    && forall c | c in h.blocks && SearchFrom(h, eff) <= c < b :: !Suits(h, c, eff)
  }

  ghost predicate NoFit(h: State, eff: nat) {
    forall c | c in h.blocks && SearchFrom(h, eff) <= c :: !Suits(h, c, eff)
  }

  /** The heap after block `b` is taken for `eff` bytes: cut in two if a line or more is left. */
  ghost function Taken(h: State, b: nat, eff: nat): State
    requires b in h.mem && h.mem[b].size >= eff
  {
    if h.mem[b].size - eff >= LINE then
      h.(mem := h.mem[b + eff := Header(false, h.mem[b].size - eff)][b := Header(true, eff)],
         blocks := h.blocks + {b + eff}, next := b + eff)
    else h.(mem := h.mem[b := h.mem[b].(busy := true)])
  }

  lemma {:induction false} TakenKeeps(h: State, b: nat, eff: nat)
    requires Inv(h) && b in h.blocks && Suits(h, b, eff) && eff > 0 && Lines(eff)
    ensures var h' := Taken(h, b, eff);
            && Inv(h') && b in h'.blocks && b in h'.mem && h'.mem[b].busy
            && eff <= h'.mem[b].size < eff + LINE
            && Busy(h') == Busy(h) + {b} && b !in Busy(h)
            && forall c | c in h.blocks && c != b :: c in h'.blocks && c in h.mem && c in h'.mem && h'.mem[c] == h.mem[c]
  {
    assert BlockOk(h, b);
    if h.mem[b].size - eff >= LINE {
      CutKeeps(h, b, eff);
    } else {
      BusyKeeps(h, b);
    }
  }

  /** The whole block is taken. */
  lemma {:induction false} BusyKeeps(h: State, b: nat)
    requires Inv(h) && b in h.blocks && b in h.mem
    ensures Inv(h.(mem := h.mem[b := h.mem[b].(busy := true)]))
  {
    var h' := h.(mem := h.mem[b := h.mem[b].(busy := true)]);
    forall x | x in h'.blocks ensures BlockOk(h', x) { assert BlockOk(h, x); }
    forall x, y | x in h'.blocks && y in h'.blocks && x < y ensures Before(h', x, y) { assert Before(h, x, y); }
  }

  /** A request of nothing leaves a block without size, unless it takes a block of less than a line whole. */
  lemma {:induction false} TakenBreaks(h: State, b: nat)
    requires Inv(h) && b in h.blocks && Suits(h, b, 0)
    ensures Inv(Taken(h, b, 0)) <==> h.mem[b].size < LINE
    ensures Lines(h.limit - h.start) ==> h.mem[b].size >= LINE
  {
    assert BlockOk(h, b);
    WholeLines(h, b);
    if h.mem[b].size < LINE {
      BusyKeeps(h, b);
    } else {
      var h' := Taken(h, b, 0);
      assert b in h'.blocks && !BlockOk(h', b);
    }
  }

  lemma {:induction false} CutKeeps(h: State, b: nat, eff: nat)
    requires Inv(h) && b in h.blocks && Suits(h, b, eff) && eff > 0 && Lines(eff) && h.mem[b].size - eff >= LINE
    ensures var h' := Taken(h, b, eff);
            && Inv(h') && b + eff !in h.blocks && Busy(h') == Busy(h) + {b}
            && forall c | c in h.blocks && c != b :: c in h.mem && c in h'.mem && h'.mem[c] == h.mem[c]
  {
    hide Lines, BlockOk, Before;
    var h', c := Taken(h, b, eff), b + eff;
    CutBlock(h, b, eff, b);
    forall x | x in h'.blocks ensures BlockOk(h', x) { CutBlock(h, b, eff, x); }
    forall x, y | x in h'.blocks && y in h'.blocks && x < y ensures Before(h', x, y) { CutPair(h, b, eff, x, y); }
  }

  lemma {:induction false} CutBlock(h: State, b: nat, eff: nat, x: nat)
    requires Inv(h) && b in h.blocks && Suits(h, b, eff) && eff > 0 && Lines(eff) && h.mem[b].size - eff >= LINE
    requires x in Taken(h, b, eff).blocks
    ensures BlockOk(Taken(h, b, eff), x) && b + eff !in h.blocks
  {
    hide Lines;
    var c := b + eff;
    assert BlockOk(h, b);
    LinesSum(b - h.start, eff);
    assert c in h.blocks ==> Before(h, b, c);
    if x != c { assert BlockOk(h, x); }
  }

  lemma {:induction false} CutPair(h: State, b: nat, eff: nat, x: nat, y: nat)
    requires Inv(h) && b in h.blocks && Suits(h, b, eff) && eff > 0 && Lines(eff) && h.mem[b].size - eff >= LINE
    requires x in Taken(h, b, eff).blocks && y in Taken(h, b, eff).blocks && x < y && b + eff !in h.blocks
    ensures Before(Taken(h, b, eff), x, y)
  {
    hide Lines, BlockOk;
    var c := b + eff;
    if x == c {
      assert Before(h, b, y);
    } else if y == c {
      assert x < b ==> Before(h, x, b);
      assert b < x ==> Before(h, b, x);
    } else {
      assert Before(h, x, y);
    }
  }

  /** A suitable block is missed exactly when it and all others like it lie below the start of the search. */
  lemma {:induction false} MissedExactly(h: State, eff: nat)
    requires Inv(h)
    ensures NoFit(h, eff) <==> forall b | b in h.blocks && Suits(h, b, eff) :: h.next <= Sub32(h.limit, eff) && b < h.next
  {
    if NoFit(h, eff) {
      forall b | b in h.blocks && Suits(h, b, eff) ensures h.next <= Sub32(h.limit, eff) && b < h.next {
        assert BlockOk(h, b);
      }
    }
  }

  // ----- Release -----

  /** Block `b` swallows the free blocks that follow it. */
  ghost function Coalesced(h: State, b: nat): State
    requires Tiled(h) && b in h.blocks
    decreases if b in h.mem then h.limit - (b + h.mem[b].size) else 0
  {
    assert BlockOk(h, b);
    var c := b + h.mem[b].size;
    if c < h.limit && c in h.mem && !h.mem[c].busy then
      MergeKeeps(h, b);
      Coalesced(Merged(h, b), b)
    else h
  }

  ghost function Merged(h: State, b: nat): State
    requires b in h.mem && b + h.mem[b].size in h.mem
  {
    var c := b + h.mem[b].size;
    h.(mem := h.mem[b := h.mem[b].(size := h.mem[b].size + h.mem[c].size)], blocks := h.blocks - {c})
  }

  lemma {:induction false} CoalesceMore(h: State, b: nat)
    requires Tiled(h) && b in h.blocks && b in h.mem && b + h.mem[b].size < h.limit
    requires b + h.mem[b].size in h.mem && !h.mem[b + h.mem[b].size].busy && Tiled(Merged(h, b)) && b in Merged(h, b).blocks
    ensures Coalesced(h, b) == Coalesced(Merged(h, b), b)
  {
  }

  lemma {:induction false} CoalesceStops(h: State, b: nat)
    requires Tiled(h) && b in h.blocks && b in h.mem
    requires b + h.mem[b].size < h.limit && b + h.mem[b].size in h.mem ==> h.mem[b + h.mem[b].size].busy
    ensures Coalesced(h, b) == h
  {
  }

  lemma {:induction false} MergeSite(h: State, b: nat)
    requires Tiled(h) && b in h.blocks && b in h.mem && b + h.mem[b].size < h.limit
    ensures var c := b + h.mem[b].size;
            && c in h.blocks && c in h.mem && h.start <= b < c && h.mem[c].size > 0
            && b + h.mem[b].size + h.mem[c].size <= h.limit
  {
    hide Lines;
    assert BlockOk(h, b);
    assert BlockOk(h, b + h.mem[b].size);
  }

  lemma {:induction false} MergeBlock(h: State, b: nat, x: nat)
    requires Tiled(h) && b in h.blocks && b in h.mem && b + h.mem[b].size < h.limit
    requires b + h.mem[b].size in h.mem && x in Merged(h, b).blocks
    ensures BlockOk(Merged(h, b), x)
  {
    hide Lines;
    MergeSite(h, b);
    var c := b + h.mem[b].size;
    assert BlockOk(h, x);
    if x == b {
      assert BlockOk(h, c);
    } else {
      assert x < b ==> Before(h, x, b);
      assert x > b ==> Before(h, b, x);
    }
  }

  lemma {:induction false} MergePair(h: State, b: nat, x: nat, y: nat)
    requires Tiled(h) && b in h.blocks && b in h.mem && b + h.mem[b].size < h.limit
    requires b + h.mem[b].size in h.mem && x in Merged(h, b).blocks && y in Merged(h, b).blocks && x < y
    ensures Before(Merged(h, b), x, y)
  {
    hide Lines, BlockOk;
    MergeSite(h, b);
    assert Before(h, x, y);
    if x == b { assert Before(h, b + h.mem[b].size, y); }
  }

  lemma {:induction false} MergeKeeps(h: State, b: nat)
    requires Tiled(h) && b in h.blocks && b in h.mem && b + h.mem[b].size < h.limit
    ensures var c := b + h.mem[b].size;
            && c in h.blocks && c in h.mem && c != b && h.mem[c].size > 0
            && Tiled(Merged(h, b)) && b + h.mem[b].size + h.mem[c].size <= h.limit
  {
    hide Lines, BlockOk, Before;
    MergeSite(h, b);
    var h' := Merged(h, b);
    forall x | x in h'.blocks ensures BlockOk(h', x) { MergeBlock(h, b, x); }
    forall x, y | x in h'.blocks && y in h'.blocks && x < y ensures Before(h', x, y) { MergePair(h, b, x, y); }
  }

  lemma {:induction false} NextIrrelevant(h: State, n: nat)
    requires Tiled(h)
    ensures Tiled(h.(next := n)) && Busy(h.(next := n)) == Busy(h)
  {
    var h' := h.(next := n);
    forall x | x in h'.blocks ensures BlockOk(h', x) { assert BlockOk(h, x); }
    forall x, y | x in h'.blocks && y in h'.blocks && x < y ensures Before(h', x, y) { assert Before(h, x, y); }
  }

  ghost function Freed(h: State, b: nat): State
    requires Inv(h) && b in h.blocks && b in h.mem
  {
    MarkKeeps(h, b);
    var h' := Coalesced(Marked(h, b), b);
    if b < h.next then h'.(next := b) else h'
  }

  ghost function Marked(h: State, b: nat): State
    requires b in h.mem
  {
    h.(mem := h.mem[b := h.mem[b].(busy := false)])
  }

  lemma {:induction false} MarkKeeps(h: State, b: nat)
    requires Inv(h) && b in h.blocks && b in h.mem
    ensures Inv(Marked(h, b)) && Busy(Marked(h, b)) == Busy(h) - {b}
  {
    var h' := Marked(h, b);
    forall x | x in h'.blocks ensures BlockOk(h', x) { assert BlockOk(h, x); }
    forall x, y | x in h'.blocks && y in h'.blocks && x < y ensures Before(h', x, y) { assert Before(h, x, y); }
  }

  /** What coalescing leaves: the block and its swallowed successors as one, all else as it was. */
  ghost predicate Swallowed(h: State, h': State, b: nat) {
    && h'.start == h.start && h'.limit == h.limit && h'.next == h.next
    && b in h'.blocks && h'.blocks <= h.blocks && b in h'.mem && !h'.mem[b].busy
    && (forall x | x in h'.blocks && x != b :: x in h.mem && x in h'.mem && h'.mem[x] == h.mem[x])
    && (forall x | x in h.blocks && x !in h'.blocks :: b < x && x in h.mem && !h.mem[x].busy && Inside(h', b, x))
  }

  lemma {:induction false} CoalescedIs(h: State, b: nat)
    requires Tiled(h) && b in h.blocks && b in h.mem && !h.mem[b].busy
    ensures var h' := Coalesced(h, b);
            && Tiled(h') && Swallowed(h, h', b) && h'.mem[b].size >= h.mem[b].size
            && (var c := b + h'.mem[b].size; c < h.limit ==> c in h'.blocks && c in h'.mem && h'.mem[c].busy)
    decreases h.limit - (b + h.mem[b].size)
  {
    assert BlockOk(h, b);
    var c := b + h.mem[b].size;
    if c < h.limit {
      MergeKeeps(h, b);
      if !h.mem[c].busy { CoalescedIs(Merged(h, b), b); }
    }
  }

  lemma {:induction false} FreedKeeps(h: State, b: nat)
    requires Inv(h) && b in Busy(h)
    ensures var h' := Freed(h, b);
            && Inv(h') && Busy(h') == Busy(h) - {b}
            && (forall x | x in Busy(h') :: h'.mem[x] == h.mem[x])
            && b in h'.blocks && b in h'.mem && !h'.mem[b].busy && h'.blocks <= h.blocks
            && (var c := b + h'.mem[b].size; c < h.limit ==> c in Busy(h'))
            && h'.next == (if b < h.next then b else h.next)
  {
    hide BlockOk, Before;
    MarkKeeps(h, b);
    CoalescedIs(Marked(h, b), b);
    NextIrrelevant(Coalesced(Marked(h, b), b), b);
  }

  class Heap {
    var start: nat
    var limit: nat
    var next: nat
    var mem: Mem
    ghost var blocks: set<nat>

    ghost function Now(): State
      reads this
    {
      State(start, limit, next, mem, blocks)
    }

    ghost predicate Valid()
      reads this
    {
      Inv(Now())
    }

    /** heap_manager_init */
    constructor (heapStart: nat, heapLimit: nat)
      requires heapStart < heapLimit < WORD
      ensures Valid() <==> heapLimit - heapStart < SIZE_LIMIT
      ensures Now() == State(heapStart, heapLimit, heapStart,
                             map[heapStart := Header(false, (heapLimit - heapStart) % SIZE_LIMIT)], {heapStart})
    {
      start, limit, next := heapStart, heapLimit, heapStart;
      mem := map[heapStart := Header(false, (heapLimit - heapStart) % SIZE_LIMIT)];
      blocks := {heapStart};
      new;
      assert Valid() ==> BlockOk(Now(), heapStart);
    }

    /** The search loop; false at the end of the heap. */
    method Search(eff: nat) returns (found: bool, b: nat)
      requires Valid()
      ensures found ==> FirstFit(Now(), eff, b)
      ensures !found ==> NoFit(Now(), eff)
    {
      hide BlockOk, Before, Sub32;
      if next > Sub32(limit, eff) { b := start; } else { b := next; }
      StepOver(Now(), b);
      while mem[b].busy || mem[b].size < eff
        invariant b in blocks && b in mem && SearchFrom(Now(), eff) <= b < limit
        invariant forall c | c in blocks && SearchFrom(Now(), eff) <= c < b :: !Suits(Now(), c, eff)
        decreases limit - b
      {
        StepOver(Now(), b);
        b := b + mem[b].size;
        if b >= limit { return false, b; }
        StepOver(Now(), b);
      }
      found := true;
    }

    /** The part of heap_manager_malloc that takes the block it found. */
    method Occupy(b: nat, eff: nat)
      requires b in mem && mem[b].size >= eff
      modifies this`mem, this`blocks, this`next
      ensures Now() == Taken(old(Now()), b, eff)
    {
      if mem[b].size - eff >= LINE {
        var rest := b + eff;
        mem := mem[rest := Header(false, mem[b].size - eff)];
        next := rest;
        mem := mem[b := Header(true, eff)];
        blocks := blocks + {rest};
      } else {
        mem := mem[b := mem[b].(busy := true)];
      }
    }

    /**
     heap_manager_malloc; 0 stands for NULL.  The heap stays in order unless a request
     wraps to nothing and cuts a block.
     */
    method Malloc(size: nat) returns (ptr: nat)
      requires Valid() && size < WORD
      modifies this`mem, this`blocks, this`next
      ensures ptr == 0 <==> NoFit(old(Now()), EffectiveSize(size))
      ensures ptr == 0 ==> Now() == old(Now())
      ensures ptr != 0 ==> ptr >= HEADER && FirstFit(old(Now()), EffectiveSize(size), ptr - HEADER)
                           && Now() == Taken(old(Now()), ptr - HEADER, EffectiveSize(size))
      ensures Valid() <==> ptr == 0 || EffectiveSize(size) != 0 || old(mem)[ptr - HEADER].size < LINE
    {
      hide Tiled, Sub32, Lines, Taken;
      var eff := EffectiveSize(size);
      EffectiveSizeExact(size);
      var found, b := Search(eff);
      if !found { return 0; }
      if eff == 0 {
        TakenBreaks(Now(), b);
      } else {
        LinesIs(eff);
        TakenKeeps(Now(), b, eff);
      }
      Occupy(b, eff);
      ptr := b + HEADER;
    }

    /** heap_manager_free of NULL or of a block that is in use. */
    method Free(ptr: nat)
      requires Valid() && (ptr != 0 ==> ptr >= HEADER && ptr - HEADER in Busy(Now()))
      modifies this`mem, this`blocks, this`next
      ensures Valid()
      ensures Now() == if ptr == 0 then old(Now()) else Freed(old(Now()), ptr - HEADER)
    {
      hide Tiled, Coalesced;
      if ptr == 0 { return; }
      var b := ptr - HEADER;
      FreedKeeps(Now(), b);
      MarkKeeps(Now(), b);
      mem := mem[b := mem[b].(busy := false)];
      ghost var marked := Now();
      StepOver(Now(), b);
      var c := b + mem[b].size;
      while c < limit && !mem[c].busy
        invariant Tiled(Now()) && b in blocks && b in mem && next == old(next)
        invariant c == b + mem[b].size <= limit && (c < limit ==> c in mem)
        invariant Coalesced(Now(), b) == Coalesced(marked, b)
        decreases limit - c
      {
        MergeKeeps(Now(), b);
        CoalesceMore(Now(), b);
        ghost var before := Now();
        mem := mem[b := mem[b].(size := mem[b].size + mem[c].size)];
        blocks := blocks - {c};
        assert Now() == Merged(before, b);
        StepOver(Now(), b);
        c := b + mem[b].size;
      }
      CoalesceStops(Now(), b);
      if b < next { next := b; }
    }
  }

  // ----- A block that is missed -----

  /** The block found is determined, and so is the heap after it is taken. */
  lemma {:induction false} Finds(h: State, eff: nat, b: nat, h': State, ptr: nat)
    requires FirstFit(h, eff, b) && h' == Taken(h, b, eff)
    requires ptr != 0 ==> ptr >= HEADER && FirstFit(h, eff, ptr - HEADER)
    requires ptr == 0 ==> NoFit(h, eff)
    ensures ptr != 0 && ptr - HEADER == b && Taken(h, ptr - HEADER, eff) == h'
  {
  }

  /** A heap of five lines, as it is cut up by the calls of MissedBlock. */
  ghost function Cut(k: nat): State {
    match k
    case 0 => State(64, 384, 64, map[64 := Header(false, 320)], {64})
    case 1 => State(64, 384, 128, map[64 := Header(true, 64), 128 := Header(false, 256)], {64, 128})
    case 2 => State(64, 384, 192, map[64 := Header(true, 64), 128 := Header(true, 64), 192 := Header(false, 192)],
                    {64, 128, 192})
    case 3 => Cut(2).(mem := Cut(2).mem[64 := Header(false, 64)], next := 64)
    case 4 => State(64, 384, 320, map[64 := Header(false, 64), 128 := Header(true, 64), 192 := Header(true, 128),
                                      320 := Header(false, 64)], {64, 128, 192, 320})
    case _ => Cut(4).(mem := Cut(4).mem[320 := Header(true, 64)])
  }

  lemma {:induction false} Sizes()
    ensures EffectiveSize(56) == 64 && EffectiveSize(120) == 128
  {
  }

  lemma {:induction false} FirstCuts()
    ensures FirstFit(Cut(0), 64, 64) && Taken(Cut(0), 64, 64) == Cut(1)
    ensures FirstFit(Cut(1), 64, 128) && Taken(Cut(1), 128, 64) == Cut(2)
  {
  }

  lemma {:induction false} LastCuts()
    ensures FirstFit(Cut(3), 128, 192) && Taken(Cut(3), 192, 128) == Cut(4)
    ensures FirstFit(Cut(4), 64, 320) && Taken(Cut(4), 320, 64) == Cut(5)
    ensures NoFit(Cut(5), 64) && Suits(Cut(5), 64, 64)
  {
  }

  lemma {:induction false} Released()
    requires Inv(Cut(2))
    ensures 64 in Busy(Cut(2)) && Freed(Cut(2), 64) == Cut(3)
  {
    MarkKeeps(Cut(2), 64);
    CoalesceStops(Marked(Cut(2), 64), 64);
  }

  /**
   The search does not wrap, so NULL does not mean that no block fits: after these calls
   the block at 64 does, but the search starts at the last one.
   */
  method MissedBlock() returns (heap: Heap, ptr: nat)
    ensures fresh(heap) && heap.Valid() && ptr == 0
    ensures 64 in heap.blocks && Suits(heap.Now(), 64, EffectiveSize(56))
  {
    hide FirstFit, NoFit, Taken, Inv, Suits, EffectiveSize, Freed;
    Sizes();
    FirstCuts();
    LastCuts();
    heap := new Heap(64, 384);
    var a := heap.Malloc(56);
    Finds(Cut(0), 64, 64, Cut(1), a);
    ptr := heap.Malloc(56);
    Finds(Cut(1), 64, 128, Cut(2), ptr);
    Released();
    heap.Free(a);
    ptr := heap.Malloc(120);
    Finds(Cut(3), 128, 192, Cut(4), ptr);
    ptr := heap.Malloc(56);
    Finds(Cut(4), 64, 320, Cut(5), ptr);
    ptr := heap.Malloc(56);
  }

  lemma LinesIs(n: nat)
    requires n % LINE == 0
    ensures Lines(n)
  {
  }

  /** Nothing starts between a block and its successor. */
  lemma {:induction false} StepOver(h: State, b: nat)
    requires Tiled(h) && b in h.blocks
    ensures b in h.mem && h.mem[b].size > 0 && h.start <= b && b + h.mem[b].size <= h.limit
    ensures b + h.mem[b].size < h.limit ==> b + h.mem[b].size in h.blocks && b + h.mem[b].size in h.mem
    ensures forall c | c in h.blocks && b < c :: b + h.mem[b].size <= c
    ensures forall c | c in h.blocks :: c < h.limit
  {
    assert BlockOk(h, b);
    if b + h.mem[b].size < h.limit { assert BlockOk(h, b + h.mem[b].size); }
    forall c | c in h.blocks && b < c ensures b + h.mem[b].size <= c { assert Before(h, b, c); }
    forall c | c in h.blocks ensures c < h.limit { assert BlockOk(h, c); }
  }
}
