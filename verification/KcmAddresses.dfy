/**
 The slab cache in memory: the pages of a Kcm cache at their addresses, with the layout
 that KcmGeometry gives them.  Pages are numbered by their address divided by the page size.
 */
module KcmAddresses {
  import opened ModArith
  import Geometry = KcmGeometry
  import Slab = Kcm

  /** get_block: where a block lies. */
  function Address(g: Geometry.Layout, b: Slab.Block): nat {
    b.page * Geometry.PAGE + Geometry.Offset(g, b.index)
  }

  /** put_block: which block lies at an address. */
  function BlockAt(g: Geometry.Layout, address: nat): (int, int)
    requires g.size > 0
  {
    var page := Geometry.PageOf(address);
    (page / Geometry.PAGE, Geometry.IndexOf(g, address - page))
  }

  lemma {:induction false} InsidePage(g: Geometry.Layout, pages: map<nat, Slab.Page>, b: Slab.Block)
    requires g.size > 0 && Geometry.Fits(g) && Slab.Pages(pages, g.blocks) && b in Slab.Live(pages, g.blocks)
    ensures b.page * Geometry.PAGE + g.start <= Address(g, b)
    ensures Address(g, b) + g.size <= (b.page + 1) * Geometry.PAGE
  {
    Slab.LiveIs(pages, g.blocks, b);
    hide Slab.Live, Slab.Pages;
    EndsBelow(b.index, g.blocks, g.size);
  }

  /** In a layout that fits, live blocks do not share memory, on one page or on two. */
  lemma {:induction false} LiveBlocksApart(g: Geometry.Layout, pages: map<nat, Slab.Page>, b: Slab.Block, c: Slab.Block)
    requires g.size > 0 && Geometry.Fits(g) && Slab.Pages(pages, g.blocks)
    requires b in Slab.Live(pages, g.blocks) && c in Slab.Live(pages, g.blocks) && b != c
    ensures Address(g, b) + g.size <= Address(g, c) || Address(g, c) + g.size <= Address(g, b)
  {
    InsidePage(g, pages, b);
    InsidePage(g, pages, c);
    hide Slab.Live, Slab.Pages, Geometry.Fits;
    if b.page == c.page {
      if b.index < c.index {
        Geometry.BlocksDisjoint(g, b.index, c.index);
      } else {
        Geometry.BlocksDisjoint(g, c.index, b.index);
      }
    }
  }

  /** And put_block finds from the address of a live block that very block. */
  lemma {:induction false} AddressFindsBlock(g: Geometry.Layout, pages: map<nat, Slab.Page>, b: Slab.Block)
    requires g.size > 0 && Geometry.Fits(g) && Slab.Pages(pages, g.blocks) && b in Slab.Live(pages, g.blocks)
    ensures BlockAt(g, Address(g, b)) == (b.page, b.index)
  {
    Slab.LiveIs(pages, g.blocks, b);
    hide Slab.Live, Slab.Pages;
    var base := b.page * Geometry.PAGE;
    ModUnique(base, b.page, 0, Geometry.PAGE);
    Geometry.IndexInverts(g, b.index, base);
  }
}
