/**
 How kcm_init (kernel/mm/kcm.c) lays out a page: an aligned header, then blocks of
 the rounded object size; and how put_block finds the block of an address again.
 `header` is sizeof(page_info_t); 40 bytes on the 32-bit targets.
 */
module KcmGeometry {
  import opened ModArith

  const PAGE: nat := 0x1000        // PMM_PAGE_SIZE
  const CACHE_LINE: nat := 64      // CONFIG_CACHE_LINE_SIZE
  const HEADER_32: nat := 40

  predicate Aligned(x: int, a: nat)
    requires a > 0
  {
    x % a == 0
  }

  /** The alignment kcm_init settles on. */
  function Alignment(requested: nat): (a: nat)
    ensures a in {32, CACHE_LINE}
  {
    if requested != 0 && requested < 33 then 32 else CACHE_LINE
  }

  /** How many blocks of size `s` a page is to hold. */
  function BlocksNr(s: nat, header: nat): nat
    requires s > 0 && header <= PAGE
  {
    if PAGE % s >= header then PAGE / s
    else
      PageDivided(s);
      PAGE / s - 1
  }

  /** What whole blocks of size `s` leave over of a page. */
  function Rest(s: nat): nat
    requires s > 0
  {
    PAGE % s
  }

  datatype Layout = Layout(size: nat, blocks: nat, start: nat)

  function Init(size: nat, requested: nat, header: nat): (g: Layout)
    requires size > 0 && 0 < header <= PAGE
    ensures g.size >= size && g.start >= header
  {
    var a := Alignment(requested);
    var s := RoundUp(size, a);
    Layout(s, BlocksNr(s, header), RoundUp(header, a))
  }

  lemma PageDivided(s: nat)
    requires s > 0
    ensures PAGE == PAGE / s * s + PAGE % s && 0 <= PAGE % s < s
    ensures PAGE % s < PAGE ==> PAGE / s >= 1
  {
  }

  lemma {:induction false} RoundedAligned(v: nat, a: nat)
    requires a > 0
    ensures Aligned(RoundUp(v, a), a)
  {
    RoundUpAligned(v, a);
  }

  /** A multiple of `a` that is at least `v` is at least `v` rounded up. */
  lemma RoundUpLeast(v: nat, a: nat, m: nat)
    requires a in {32, CACHE_LINE} && Aligned(m, a) && m >= v
    ensures m >= RoundUp(v, a)
  {
  }

  /** The offset of block `k` from the start of the page: what get_block returns. */
  function Offset(g: Layout, k: nat): nat { g.start + k * g.size }

  /** put_block's computation. */
  function IndexOf(g: Layout, offset: nat): int
    requires g.size > 0
  {
    (offset - g.start) / g.size
  }

  /** The page of an address: masking with KCM_PAGE_MASK. */
  function PageOf(address: nat): nat { address - address % PAGE }

  /** Header and blocks stay inside the page. */
  predicate Fits(g: Layout) { g.start + g.blocks * g.size <= PAGE }

  /** What is left over of a page after whole blocks is a multiple of the alignment. */
  lemma RestAligned(q: nat, s: nat, r: int, a: nat)
    requires a in {32, CACHE_LINE} && Aligned(s, a) && PAGE == q * s + r
    ensures Aligned(r, a)
  {
    MultipleOf(q, s, a);
    DifferenceAligned(PAGE, q * s, a);
  }

  lemma DifferenceAligned(x: int, y: int, a: nat)
    requires a in {32, CACHE_LINE} && x % a == 0 && y % a == 0
    ensures (x - y) % a == 0
  {
  }

  lemma MultipleOf(q: nat, s: nat, a: nat)
    requires a in {32, CACHE_LINE} && s % a == 0
    ensures (q * s) % a == 0
  {
    var t := s / a;
    assert s == t * a;
    assert q * (t * a) == (q * t) * a;
    ModUnique(q * s, q * t, 0, a);
  }

  /** The layout fits exactly when the aligned header finds room in what the blocks leave over. */
  lemma FitsExactly(size: nat, requested: nat, header: nat)
    requires size > 0 && 0 < header <= PAGE
    ensures var g := Init(size, requested, header);
            Fits(g) <==> Rest(g.size) >= header || g.start <= Rest(g.size) + g.size
  {
    hide RoundUp, BlocksNr, Alignment, Rest, Aligned;
    var a := Alignment(requested);
    var s := RoundUp(size, a);
    RoundedAligned(size, a);
    HeaderFitsRest(s, a, header);
    FitsIff(s, header, RoundUp(header, a));
  }

  lemma HeaderFitsRest(s: nat, a: nat, header: nat)
    requires a in {32, CACHE_LINE} && s > 0 && Aligned(s, a)
    ensures Rest(s) >= header ==> Rest(s) >= RoundUp(header, a)
  {
    hide RoundUp, Aligned;
    PageDivided(s);
    var r := Rest(s);
    RestAligned(PAGE / s, s, r, a);
    if r >= header { RoundUpLeast(header, a, r); }
  }

  lemma FitsIff(s: nat, header: nat, start: nat)
    requires s > 0 && header <= PAGE && (Rest(s) >= header ==> Rest(s) >= start)
    ensures start + BlocksNr(s, header) * s <= PAGE <==> Rest(s) >= header || start <= Rest(s) + s
  {
    PageDivided(s);
    if PAGE % s < header { OneLess(PAGE / s, s); }
  }

  lemma OneLess(q: nat, s: nat)
    requires q >= 1
    ensures (q - 1) * s == q * s - s
  {
  }

  /** In particular whenever the aligned header is no larger than a block. */
  lemma FitsIfHeaderSmall(size: nat, requested: nat, header: nat)
    requires size > 0 && 0 < header <= PAGE
    requires RoundUp(header, Alignment(requested)) <= RoundUp(size, Alignment(requested))
    ensures Fits(Init(size, requested, header))
  {
    FitsExactly(size, requested, header);
  }

  /** Objects of at most 32 bytes with 32-byte alignment: the last block lies outside its page. */
  lemma SmallObjectsOverrun()
    ensures var g := Init(32, 32, HEADER_32);
            && g == Layout(32, 127, 64) && !Fits(g)
            && Offset(g, g.blocks - 1) == PAGE
            && PageOf(3 * PAGE + Offset(g, g.blocks - 1)) != 3 * PAGE
  {
  }

  /** put_block's index and page computations undo get_block's address computation. */
  lemma IndexInverts(g: Layout, k: nat, page: nat)
    requires g.size > 0 && k < g.blocks
    ensures IndexOf(g, Offset(g, k)) == k
    ensures Fits(g) && page % PAGE == 0 ==> PageOf(page + Offset(g, k)) == page
  {
    ModUnique(k * g.size, k, 0, g.size);
    if Fits(g) && page % PAGE == 0 {
      EndsBelow(k, g.blocks, g.size);
      var w := page / PAGE;
      assert page == w * PAGE;
      ModUnique(page + Offset(g, k), w, Offset(g, k), PAGE);
    }
  }

  /** Different blocks do not overlap, and none overlaps the header. */
  lemma BlocksDisjoint(g: Layout, j: nat, k: nat)
    requires j < k
    ensures Offset(g, j) + g.size <= Offset(g, k) && g.start <= Offset(g, j)
  {
    EndsBelow(j, k, g.size);
  }

  /** The bitmap of a page has a bit for every block. */
  lemma BitmapLargeEnough(size: nat, requested: nat, header: nat)
    requires size > 0 && 0 < header <= PAGE
    ensures Init(size, requested, header).blocks <= 128
  {
    var a := Alignment(requested);
    var s := RoundUp(size, a);
    assert s >= 32 by { RoundedAligned(size, a); }
    BlocksAtMost(s, header);
  }

  lemma BlocksAtMost(s: nat, header: nat)
    requires s >= 32 && header <= PAGE
    ensures BlocksNr(s, header) <= 128
  {
    PageDivided(s);
    AtMost(PAGE / s, s);
  }

  lemma AtMost(q: nat, s: nat)
    requires q * s <= PAGE && s >= 32
    ensures q <= 128
  {
    assert q >= 129 ==> q * s >= 129 * s;
  }
}
