/**
  The heap of the K&R storage allocator (src/umalloc.c; "The C Programming Language", 2nd ed.,
  section 8.7) and what single updates of it preserve.

  Memory is a sequence of header-sized units; unit 0 is the static `base`, which lies below the
  heap.  The ghost map `blocks` gives the size in units, header included, of every block; the set
  `fs` holds the free ones, all others are live.
 */
module FreeList {

  datatype Header = Header(ptr: nat, size: nat)

  type Memory = seq<Header>

  /** x follows f in address order, with the one wrap from the highest block back to `base`. */
  ghost predicate Succ(fs: set<nat>, f: nat, x: nat)
  {
    x in fs &&
    if x <= f then x == 0 && forall g :: g in fs ==> g <= f
    else forall g :: g in fs ==> g <= f || x <= g
  }

  ghost predicate Linked(mem: Memory, fs: set<nat>, f: nat)
  {
    f < |mem| && Succ(fs, f, mem[f].ptr)
  }

  /** One cycle through exactly the free blocks, in address order. */
  ghost predicate Ring(mem: Memory, fs: set<nat>)
  {
    0 in fs && forall f {:trigger Linked(mem, fs, f)} :: f in fs ==> Linked(mem, fs, f)
  }

  ghost function Follow(mem: Memory, f: nat, k: nat): nat
    decreases k
  {
    if k == 0 || f >= |mem| then f else Follow(mem, mem[f].ptr, k - 1)
  }

  /** The list is a single cycle: following pointers leads from any free block to any other. */
  lemma {:induction false} RingReaches(mem: Memory, fs: set<nat>, f: nat, g: nat) returns (k: nat)
    requires Ring(mem, fs) && f in fs && g in fs
    ensures Follow(mem, f, k) == g
    decreases f > g, |mem| - f
  {
    k := 0;
    if f != g {
      assert Linked(mem, fs, f);
      k := RingReaches(mem, fs, mem[f].ptr, g);
      k := k + 1;
    }
  }

  /** Blocks are non-empty (but for `base`), pairwise disjoint and below the break. */
  ghost predicate Tiled(mem: Memory, blocks: map<nat, nat>, brk: nat)
  {
    && 1 <= brk <= |mem| && 0 in blocks && blocks[0] == 0
    && (forall a :: a in blocks ==>
          a < |mem| && mem[a].size == blocks[a] && a + blocks[a] <= brk && (a != 0 ==> 1 <= blocks[a]))
    && (forall a, b :: a in blocks && b in blocks && a < b ==> a + blocks[a] <= b)
  }

  /** No two free blocks touch: everything that could be coalesced has been. */
  ghost predicate Coalesced(blocks: map<nat, nat>, fs: set<nat>)
  {
    forall f, g :: f in fs && g in fs && f in blocks && f < g ==> f + blocks[f] != g
  }

  ghost predicate Inv(mem: Memory, blocks: map<nat, nat>, fs: set<nat>, brk: nat)
  {
    fs <= blocks.Keys && Ring(mem, fs) && Tiled(mem, blocks, brk) && Coalesced(blocks, fs)
  }

  /** Units strictly inside live blocks belong to the program: they keep their contents. */
  ghost predicate PayloadKept(mem: Memory, mem': Memory, live: map<nat, nat>)
  {
    |mem'| == |mem| &&
    forall a, u: nat :: a in live && a < u < a + live[a] && u < |mem| ==> mem'[u] == mem[u]
  }

  /** p is the free block after which a block at bp belongs. */
  ghost predicate Precedes(fs: set<nat>, p: nat, bp: nat)
  {
    p in fs && p < bp && forall g :: g in fs ==> g <= p || bp < g
  }

  // ----- free: insert, then merge with the neighbours -----

  function Insert(mem: Memory, p: nat, bp: nat): (r: Memory)
    requires p < |mem| && bp < |mem|
  {
    mem[bp := mem[bp].(ptr := mem[p].ptr)][p := mem[p].(ptr := bp)]
  }

  lemma InsertKeepsRing(mem: Memory, fs: set<nat>, p: nat, bp: nat)
    requires Ring(mem, fs) && bp < |mem| && Precedes(fs, p, bp) && Linked(mem, fs, p)
    ensures Ring(Insert(mem, p, bp), fs + {bp})
  {
    forall f | f in fs + {bp}
      ensures Linked(Insert(mem, p, bp), fs + {bp}, f)
    {
      assert f != bp ==> Linked(mem, fs, f);
    }
  }

  /** Absorb the successor of f, which starts where f ends. */
  function Merge(mem: Memory, f: nat): (r: Memory)
    requires f < |mem| && mem[f].ptr < |mem|
  {
    mem[f := Header(mem[mem[f].ptr].ptr, mem[f].size + mem[mem[f].ptr].size)]
  }

  function Absorb(blocks: map<nat, nat>, f: nat, nx: nat): (r: map<nat, nat>)
    requires f in blocks && nx in blocks && f != nx
  {
    (blocks - {nx})[f := blocks[f] + blocks[nx]]
  }

  lemma MergeKeepsRing(mem: Memory, fs: set<nat>, f: nat)
    requires Ring(mem, fs) && f in fs && Linked(mem, fs, f) && mem[f].ptr > f && Linked(mem, fs, mem[f].ptr)
    ensures Ring(Merge(mem, f), fs - {mem[f].ptr})
  {
    var nx := mem[f].ptr;
    forall h | h in fs - {nx}
      ensures Linked(Merge(mem, f), fs - {nx}, h)
    {
      assert Linked(mem, fs, h);
    }
  }

  lemma MergeKeepsTiled(mem: Memory, blocks: map<nat, nat>, brk: nat, f: nat, nx: nat)
    requires Tiled(mem, blocks, brk) && f in blocks && nx in blocks && f != 0
    requires mem[f].ptr == nx == f + blocks[f]
    ensures Tiled(Merge(mem, f), Absorb(blocks, f, nx), brk)
  {
  }

  /** The header `free` gives to bp once it has looked at the block above. */
  function TopHeader(mem: Memory, p: nat, bp: nat): (h: Header)
    requires p < |mem| && bp < |mem| && mem[p].ptr < |mem|
  {
    var nx := mem[p].ptr;
    if bp + mem[bp].size == nx
    then Header(mem[nx].ptr, mem[bp].size + mem[nx].size)
    else mem[bp].(ptr := nx)
  }

  /** The memory `free` leaves behind when it finds that bp belongs after p. */
  function Freed(mem: Memory, p: nat, bp: nat): (r: Memory)
    requires p < |mem| && bp < |mem| && mem[p].ptr < |mem| && p != bp
  {
    var hb := TopHeader(mem, p, bp);
    var hp := if p + mem[p].size == bp
              then Header(hb.ptr, mem[p].size + hb.size)
              else mem[p].(ptr := bp);
    mem[bp := hb][p := hp]
  }

  /** The blocks after bp has been merged with what it touches among p (below) and nx (above). */
  function MergedBlocks(blocks: map<nat, nat>, p: nat, bp: nat, nx: nat): (r: map<nat, nat>)
    requires p in blocks && bp in blocks && p < bp && (nx in blocks || bp + blocks[bp] != nx)
  {
    var up := if bp + blocks[bp] == nx && nx != bp then Absorb(blocks, bp, nx) else blocks;
    if p + blocks[p] == bp && p in up && bp in up then Absorb(up, p, bp) else up
  }

  function MergedFree(blocks: map<nat, nat>, fs: set<nat>, p: nat, bp: nat, nx: nat): (r: set<nat>)
    requires p in blocks && bp in blocks
  {
    var up := if bp + blocks[bp] == nx then fs + {bp} - {nx} else fs + {bp};
    if p + blocks[p] == bp then up - {bp} else up
  }

  /** The invariant but for coalescing, as it holds between the steps of `free`. */
  ghost predicate Half(mem: Memory, blocks: map<nat, nat>, fs: set<nat>, brk: nat)
  {
    fs <= blocks.Keys && Ring(mem, fs) && Tiled(mem, blocks, brk)
  }

  lemma FreeFacts(mem: Memory, blocks: map<nat, nat>, fs: set<nat>, brk: nat, p: nat, bp: nat)
    requires Half(mem, blocks, fs, brk) && bp in blocks && bp !in fs && Precedes(fs, p, bp)
    ensures Linked(mem, fs, p) && p in blocks && bp < |mem| && mem[bp].size == blocks[bp] >= 1
    ensures mem[p].size == blocks[p] && mem[p].ptr in fs && mem[p].ptr in blocks && mem[p].ptr < |mem|
    ensures mem[mem[p].ptr].size == blocks[mem[p].ptr] && (mem[p].ptr == 0 || bp < mem[p].ptr)
  {
    assert Linked(mem, fs, p);
    assert Linked(mem, fs, mem[p].ptr);
  }

  lemma InsertKeepsHalf(mem: Memory, blocks: map<nat, nat>, fs: set<nat>, brk: nat, p: nat, bp: nat)
    requires Half(mem, blocks, fs, brk) && bp in blocks && bp !in fs && Precedes(fs, p, bp)
    ensures p < |mem| && bp < |mem| && Half(Insert(mem, p, bp), blocks, fs + {bp}, brk)
  {
    FreeFacts(mem, blocks, fs, brk, p, bp);
    InsertKeepsRing(mem, fs, p, bp);
  }

  lemma MergeKeepsHalf(mem: Memory, blocks: map<nat, nat>, fs: set<nat>, brk: nat, f: nat, nx: nat)
    requires Half(mem, blocks, fs, brk) && f in fs && f != 0 && f in blocks && f < |mem|
    requires mem[f].ptr == nx == f + blocks[f]
    ensures nx in fs && nx in blocks && nx < |mem| && f != nx
    ensures Half(Merge(mem, f), Absorb(blocks, f, nx), fs - {nx}, brk)
  {
    assert Linked(mem, fs, f);
    assert Linked(mem, fs, nx);
    MergeKeepsRing(mem, fs, f);
    MergeKeepsTiled(mem, blocks, brk, f, nx);
  }

  lemma UpKeepsHalf(mem: Memory, blocks: map<nat, nat>, fs: set<nat>, brk: nat, p: nat, bp: nat, nx: nat)
    requires p < |mem| && bp < |mem| && p < bp && bp != 0 && mem[p].ptr == nx && nx < |mem|
    requires bp in blocks && nx in blocks && mem[bp].size == blocks[bp]
    requires Half(Insert(mem, p, bp), blocks, fs + {bp}, brk)
    ensures var up := bp + blocks[bp] == nx;
      Half(mem[bp := TopHeader(mem, p, bp)][p := mem[p].(ptr := bp)],
           if up && bp != nx then Absorb(blocks, bp, nx) else blocks,
           if up then fs + {bp} - {nx} else fs + {bp}, brk)
  {
    var m := Insert(mem, p, bp);
    var m' := mem[bp := TopHeader(mem, p, bp)][p := mem[p].(ptr := bp)];
    if bp + blocks[bp] == nx {
      MergeKeepsHalf(m, blocks, fs + {bp}, brk, bp, nx);
      assert m' == Merge(m, bp);
    } else {
      assert m' == m;
    }
  }

  lemma DownKeepsHalf(mem: Memory, m: Memory, up: map<nat, nat>, fs: set<nat>, brk: nat, p: nat, bp: nat)
    requires p < bp < |mem| && p in up && p in fs && up[p] == mem[p].size && mem[p].ptr < |mem| && p != 0
    requires m == mem[bp := TopHeader(mem, p, bp)][p := mem[p].(ptr := bp)]
    requires Half(m, up, fs, brk) && p + mem[p].size == bp
    ensures bp in up && Half(Freed(mem, p, bp), Absorb(up, p, bp), fs - {bp}, brk)
  {
    MergeKeepsHalf(m, up, fs, brk, p, bp);
    assert Merge(m, p) == Freed(mem, p, bp);
  }

  lemma FreeKeepsHalf(mem: Memory, blocks: map<nat, nat>, fs: set<nat>, brk: nat, p: nat, bp: nat)
    requires Half(mem, blocks, fs, brk) && bp in blocks && bp !in fs && Precedes(fs, p, bp)
    ensures p < |mem| && bp < |mem| && mem[p].ptr < |mem| && mem[p].ptr in blocks && p in blocks
    ensures Half(Freed(mem, p, bp), MergedBlocks(blocks, p, bp, mem[p].ptr),
                 MergedFree(blocks, fs, p, bp, mem[p].ptr), brk)
  {
    FreeFacts(mem, blocks, fs, brk, p, bp);
    var nx := mem[p].ptr;
    InsertKeepsHalf(mem, blocks, fs, brk, p, bp);
    UpKeepsHalf(mem, blocks, fs, brk, p, bp, nx);
    if p + blocks[p] == bp {
      var up := bp + blocks[bp] == nx;
      DownKeepsHalf(mem, mem[bp := TopHeader(mem, p, bp)][p := mem[p].(ptr := bp)],
                    if up && bp != nx then Absorb(blocks, bp, nx) else blocks,
                    if up then fs + {bp} - {nx} else fs + {bp}, brk, p, bp);
    }
  }

  lemma MergedIsCoalesced(mem: Memory, blocks: map<nat, nat>, fs: set<nat>, brk: nat, p: nat, bp: nat)
    requires Inv(mem, blocks, fs, brk) && bp in blocks && bp !in fs && Precedes(fs, p, bp)
    requires Linked(mem, fs, p)
    ensures Coalesced(MergedBlocks(blocks, p, bp, mem[p].ptr), MergedFree(blocks, fs, p, bp, mem[p].ptr))
  {
  }

  lemma FreeKeepsPayload(mem: Memory, blocks: map<nat, nat>, fs: set<nat>, brk: nat, p: nat, bp: nat)
    requires Tiled(mem, blocks, brk) && p in blocks && bp in blocks && p < bp && mem[p].ptr < |mem|
    ensures PayloadKept(mem, Freed(mem, p, bp), blocks - fs)
  {
  }

  // ----- malloc: unlink a block or cut off its tail -----

  function Unlink(mem: Memory, prev: nat, p: nat): (r: Memory)
    requires prev < |mem| && p < |mem|
  {
    mem[prev := mem[prev].(ptr := mem[p].ptr)]
  }

  lemma UnlinkKeepsInv(mem: Memory, blocks: map<nat, nat>, fs: set<nat>, brk: nat, prev: nat, p: nat)
    requires Inv(mem, blocks, fs, brk) && prev in fs && p in fs && p != 0 && p < |mem|
    requires Linked(mem, fs, prev) && mem[prev].ptr == p
    ensures Inv(Unlink(mem, prev, p), blocks, fs - {p}, brk) && prev != p
    ensures PayloadKept(mem, Unlink(mem, prev, p), blocks - fs)
  {
    assert Linked(mem, fs, p);
    forall f | f in fs - {p}
      ensures Linked(Unlink(mem, prev, p), fs - {p}, f)
    {
      assert Linked(mem, fs, f);
    }
  }

  /** Keep the head of block p and make its last n units a block of their own. */
  function Split(mem: Memory, p: nat, n: nat): (r: Memory)
    requires p < |mem| && n <= mem[p].size && p + mem[p].size - n < |mem|
  {
    var q := p + mem[p].size - n;
    var m := mem[p := mem[p].(size := mem[p].size - n)];
    m[q := m[q].(size := n)]
  }

  lemma SplitKeepsTiled(mem: Memory, blocks: map<nat, nat>, brk: nat, p: nat, n: nat)
    requires Tiled(mem, blocks, brk) && p in blocks && 1 <= n < blocks[p]
    ensures var q := p + blocks[p] - n;
      q !in blocks && q < |mem| && Tiled(Split(mem, p, n), blocks[p := blocks[p] - n][q := n], brk)
  {
  }

  lemma SplitKeepsRing(mem: Memory, fs: set<nat>, p: nat, n: nat)
    requires Ring(mem, fs) && p < |mem| && n <= mem[p].size && p + mem[p].size - n < |mem|
    ensures Ring(Split(mem, p, n), fs)
  {
    forall f | f in fs
      ensures Linked(Split(mem, p, n), fs, f)
    {
      assert Linked(mem, fs, f);
    }
  }

  lemma SplitKeepsPayload(mem: Memory, blocks: map<nat, nat>, fs: set<nat>, brk: nat, p: nat, n: nat)
    requires Tiled(mem, blocks, brk) && p in blocks && p in fs && 1 <= n < blocks[p]
    ensures p + blocks[p] - n < |mem| && PayloadKept(mem, Split(mem, p, n), blocks - fs)
  {
  }

  lemma SplitKeepsCoalesced(blocks: map<nat, nat>, fs: set<nat>, p: nat, n: nat)
    requires Coalesced(blocks, fs) && fs <= blocks.Keys && p in fs && n <= blocks[p]
    requires p + blocks[p] - n !in blocks
    ensures Coalesced(blocks[p := blocks[p] - n][p + blocks[p] - n := n], fs)
  {
  }

  lemma SplitKeepsInv(mem: Memory, blocks: map<nat, nat>, fs: set<nat>, brk: nat, p: nat, n: nat)
    requires Inv(mem, blocks, fs, brk) && p in fs && p in blocks && 1 <= n < blocks[p]
    ensures var q := p + blocks[p] - n;
      q !in blocks && q < |mem| && p < |mem| && mem[p].size == blocks[p]
      && Inv(Split(mem, p, n), blocks[p := blocks[p] - n][q := n], fs, brk)
    ensures PayloadKept(mem, Split(mem, p, n), blocks - fs)
  {
    SplitKeepsTiled(mem, blocks, brk, p, n);
    SplitKeepsRing(mem, fs, p, n);
    SplitKeepsPayload(mem, blocks, fs, brk, p, n);
    SplitKeepsCoalesced(blocks, fs, p, n);
  }

  // ----- fresh memory from sbrk -----

  lemma GrowKeepsTiled(mem: Memory, blocks: map<nat, nat>, brk: nat, hp: nat, n: nat)
    requires Tiled(mem, blocks, brk) && brk <= hp && 1 <= n && hp + n <= |mem|
    ensures hp !in blocks && Tiled(mem[hp := mem[hp].(size := n)], blocks[hp := n], hp + n)
  {
  }

  lemma GrowKeepsRing(mem: Memory, fs: set<nat>, hp: nat, n: nat)
    requires Ring(mem, fs) && hp < |mem|
    ensures Ring(mem[hp := mem[hp].(size := n)], fs)
  {
    forall f | f in fs
      ensures Linked(mem[hp := mem[hp].(size := n)], fs, f)
    {
      assert Linked(mem, fs, f);
    }
  }

  lemma GrowKeepsCoalesced(blocks: map<nat, nat>, fs: set<nat>, hp: nat, n: nat)
    requires Coalesced(blocks, fs) && fs <= blocks.Keys && hp !in blocks
    ensures Coalesced(blocks[hp := n], fs)
  {
  }

  lemma GrowKeepsPayload(mem: Memory, blocks: map<nat, nat>, fs: set<nat>, brk: nat, hp: nat, n: nat)
    requires Tiled(mem, blocks, brk) && brk <= hp < |mem|
    ensures PayloadKept(mem, mem[hp := mem[hp].(size := n)], blocks - fs)
  {
  }

  lemma GrowKeepsInv(mem: Memory, blocks: map<nat, nat>, fs: set<nat>, brk: nat, hp: nat, n: nat)
    requires Inv(mem, blocks, fs, brk) && brk <= hp && 1 <= n && hp + n <= |mem|
    ensures hp !in blocks && Inv(mem[hp := mem[hp].(size := n)], blocks[hp := n], fs, hp + n)
  {
    GrowKeepsTiled(mem, blocks, brk, hp, n);
    GrowKeepsRing(mem, fs, hp, n);
    GrowKeepsCoalesced(blocks, fs, hp, n);
  }
}
