/**
  The pool of 32-byte slabs (src/kalloc.c:99-133).  `kalloc` is represented by the page it returns,
  a page that is not in use.
 */
module Slab {
  import opened Common

  const SLABSIZE: nat := 32
  const PERPAGE: nat := 127      // the loop stops short of the last slab of a page

  function PageOf(a: nat): (p: nat) { a - a % PGSIZE }

  /** Address a is one of the slabs carved from these pages. */
  predicate Carved(pages: set<nat>, a: nat)
  {
    PageOf(a) in pages && a % SLABSIZE == 0 && a % PGSIZE + SLABSIZE < PGSIZE
  }

  /** Different slabs have no byte in common, and none reaches over the end of its page. */
  lemma SlabsDisjoint(pages: set<nat>, a: nat, b: nat, x: nat)
    requires Carved(pages, a) && Carved(pages, b) && a <= x < a + SLABSIZE
    ensures b <= x < b + SLABSIZE ==> a == b
    ensures PageOf(x) in pages
  {
    if b <= x < b + SLABSIZE {
      Aligned(a, b);
    }
    SamePage(a, x);
  }

  lemma Aligned(a: nat, b: nat)
    requires a % SLABSIZE == 0 && b % SLABSIZE == 0 && a < b + SLABSIZE && b < a + SLABSIZE
    ensures a == b
  {
    var i, j := a / SLABSIZE, b / SLABSIZE;
    assert a == i * SLABSIZE && b == j * SLABSIZE;
  }

  lemma SamePage(a: nat, x: nat)
    requires a <= x < a + SLABSIZE && a % PGSIZE + SLABSIZE < PGSIZE
    ensures PageOf(x) == PageOf(a)
  {
    InPage(a / PGSIZE, a % PGSIZE + (x - a));
  }

  lemma InPage(q: nat, r: nat)
    requires r < PGSIZE
    ensures (q * PGSIZE + r) % PGSIZE == r
  {
  }

  lemma Multiple(k: nat)
    ensures k * SLABSIZE % SLABSIZE == 0
  {
  }

  lemma SlabAt(pages: set<nat>, start: nat, i: nat)
    requires start % PGSIZE == 0 && start in pages && i < PERPAGE
    ensures Carved(pages, start + i * SLABSIZE) && PageOf(start + i * SLABSIZE) == start
  {
    InPage(start / PGSIZE, i * SLABSIZE);
    var k := start / PGSIZE * (PGSIZE / SLABSIZE) + i;
    assert start + i * SLABSIZE == k * SLABSIZE;
    Multiple(k);
  }

  class SlabPool {
    var freelist: seq<nat>
    var nfreeblock: int
    ghost var pages: set<nat>
    ghost var used: set<nat>

    /** Free and used slabs are different slabs of the pages, and there is no other slab. */
    ghost predicate Valid()
      reads this
    {
      && nfreeblock == |freelist|
      && (forall p :: p in pages ==> p % PGSIZE == 0)
      && (forall i :: 0 <= i < |freelist| ==> Carved(pages, freelist[i]) && freelist[i] !in used)
      && (forall i, j :: 0 <= i < j < |freelist| ==> freelist[i] != freelist[j])
      && (forall a :: a in used ==> Carved(pages, a))
      && |freelist| + |used| == PERPAGE * |pages|
    }

    constructor ()
      ensures Valid() && used == {} && pages == {}
    {
      freelist, nfreeblock, pages, used := [], 0, {}, {};
    }

    /** The list operation of `free_slab`. */
    method Push(v: nat)
      modifies this`freelist, this`nfreeblock
      ensures freelist == [v] + old(freelist) && nfreeblock == old(nfreeblock) + 1
    {
      freelist := [v] + freelist;
      nfreeblock := nfreeblock + 1;
    }

    /** `free_slab` of a slab in use. */
    method FreeSlab(v: nat)
      requires Valid() && v in used
      modifies this
      ensures Valid() && used == old(used) - {v} && pages == old(pages)
    {
      Push(v);
      used := used - {v};
    }

    /** `slabinit`: carve a new page. */
    method SlabInit(start: nat)
      requires Valid() && start % PGSIZE == 0 && start !in pages
      modifies this
      ensures Valid() && used == old(used) && pages == old(pages) + {start}
      ensures |freelist| == |old(freelist)| + PERPAGE
    {
      var p := start;
      ghost var i := 0;
      pages := pages + {start};
      while p + SLABSIZE < start + PGSIZE
        invariant i <= PERPAGE && p == start + i * SLABSIZE && pages == old(pages) + {start} && used == old(used)
        invariant nfreeblock == |freelist| == |old(freelist)| + i
        invariant forall j :: 0 <= j < |freelist| ==> Carved(pages, freelist[j]) && freelist[j] !in used
        invariant forall j :: 0 <= j < |freelist| ==> freelist[j] < p || PageOf(freelist[j]) != start
        invariant forall j, k :: 0 <= j < k < |freelist| ==> freelist[j] != freelist[k]
      {
        SlabAt(pages, start, i);
        Push(p);
        p := p + SLABSIZE;
        i := i + 1;
      }
    }

    /** `alloc_slab`: a slab that nobody uses.  `page` is what `kalloc` returns if it is called. */
    method AllocSlab(page: nat) returns (v: nat)
      requires Valid() && page % PGSIZE == 0 && page !in pages
      modifies this
      ensures Valid() && v !in old(used) && used == old(used) + {v} && Carved(pages, v)
      ensures pages == if old(nfreeblock) == 0 then old(pages) + {page} else old(pages)
    {
      if nfreeblock == 0 {
        SlabInit(page);
      }
      v := freelist[0];
      freelist := freelist[1..];
      nfreeblock := nfreeblock - 1;
      used := used + {v};
    }
  }
}
