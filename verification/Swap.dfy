/**
  `kalloc`, `page_out`, `page_in`, `allocuvm` and their helpers (src/vm.c, src/kalloc.c) with their
  loops and in-place updates, as runs of `SwapState`.  A panic halts the machine, so nothing is
  promised about the state behind one.
 */
module Swap {
  import opened Common
  import opened SwapState
  import opened SwapSupply
  import Slab

  const KERNBASE: nat := 0x8000_0000
  const MAX_PID: nat := 0xfff

  /** Lengthen a run by one enabled event. */
  lemma Extend(r: Run, e: Event) returns (r': Run)
    requires Reached(r) && Enabled(r.s, e)
    ensures r' == Then(r, e, Step(r.s, e)) && Reached(r')
  {
    r' := Then(r, e, Step(r.s, e));
    ReachedIsRun(r);
    ReachedIsRun(r');
  }

  lemma InvHolds(r: Run)
    requires Reached(r)
    ensures Inv(r.s)
  {
    ReachedIsRun(r);
    RunKeepsInv(r);
  }

  lemma QueueFacts(r: Run, v: nat)
    requires Reached(r) && v < |r.s.queue|
    ensures r.s.queue[v].key in r.s.pt && r.s.pt[r.s.queue[v].key].present && r.s.queue[v].key != 0
    ensures r.s.pt[r.s.queue[v].key].frame in r.s.frames && |r.s.slots| == |r.s.swapMap|
    ensures r.s.pt[r.s.queue[v].key].frame !in r.s.kernel
    ensures FirstEntry(r.s.queue, r.s.queue[v].key) == v
  {
    InvHolds(r);
  }

  lemma FreeFacts(r: Run)
    requires Reached(r) && r.s.free != []
    ensures r.s.free[0] in r.s.frames && r.s.free[0] !in r.s.kernel
  {
    InvHolds(r);
  }

  lemma UnmappedFacts(r: Run, key: nat)
    requires Reached(r) && key !in r.s.pt
    ensures NotQueued(r.s, key) && key !in r.s.flat
  {
    InvHolds(r);
  }

  lemma PageFacts(r: Run, key: nat)
    requires Reached(r) && key in r.s.pt
    ensures key != 0 && |r.s.slots| == |r.s.swapMap| && key in r.s.flat
    ensures r.s.pt[key].present ==> r.s.pt[key].frame in r.s.frames && r.s.frames[r.s.pt[key].frame] == r.s.flat[key]
    ensures !r.s.pt[key].present ==> key in r.s.swapMap && NotQueued(r.s, key)
  {
    InvHolds(r);
  }

  /** How many swap slots are free. */
  function FreeSlots(m: seq<nat>): (n: nat)
    ensures n > 0 <==> 0 in m
  {
    multiset(m)[0]
  }

  lemma SlotUsed(m: seq<nat>, i: nat, x: nat)
    requires i < |m| && (m[i] == 0 <==> x != 0)
    ensures FreeSlots(m[i := x]) == if x != 0 then FreeSlots(m) - 1 else FreeSlots(m) + 1
  {
  }

  ghost predicate NotQueued(s: Vm, k: nat)
  {
    forall i :: 0 <= i < |s.queue| ==> s.queue[i].key != k
  }

  /** Pages outside the queue are safe from eviction: they keep their frames and stay outside. */
  ghost predicate Spared(s: Vm, s': Vm)
  {
    && s'.flat == s.flat
    && forall k :: k in s.pt && NotQueued(s, k) ==> k in s'.pt && s'.pt[k] == s.pt[k] && NotQueued(s', k)
  }

  /** Frames the kernel holds keep their contents. */
  ghost predicate KernelKept(s: Vm, s': Vm)
  {
    forall f :: f in s.kernel && f in s.frames ==> f in s'.frames && s'.frames[f] == s.frames[f]
  }

  lemma EvictSpares(s: Vm, v: nat, slot: nat)
    requires Enabled(s, Evict(v, slot)) && s.pt[s.queue[v].key].frame !in s.kernel
    ensures Spared(s, Step(s, Evict(v, slot))) && Step(s, Evict(v, slot)).pt.Keys == s.pt.Keys
    ensures KernelKept(s, Step(s, Evict(v, slot)))
  {
  }

  lemma EvictCounts(s: Vm, v: nat, slot: nat)
    requires Enabled(s, Evict(v, slot)) && s.queue[v].key != 0
    ensures var s' := Step(s, Evict(v, slot));
      |s'.free| == |s.free| + 1 && |s'.queue| == |s.queue| - 1 && FreeSlots(s'.swapMap) == FreeSlots(s.swapMap) - 1
  {
    SlotUsed(s.swapMap, slot, s.queue[v].key);
  }

  /** The page second chance picks: the first one not accessed, or the first of all. */
  ghost predicate SecondChance(q: seq<Entry>, v: nat)
  {
    && v < |q|
    && if q[v].accessed then v == 0 && forall i :: 0 <= i < |q| ==> q[i].accessed
       else forall i :: 0 <= i < v ==> q[i].accessed
  }

  lemma ChanceIsPicked(q: seq<Entry>, v: nat)
    requires SecondChance(q, v)
    ensures v == Picked(q)
  {
  }

  /** The queue behind that choice: the bits looked at are cleared. */
  ghost predicate BitsCleared(q: seq<Entry>, q': seq<Entry>, v: nat)
    requires v < |q|
  {
    SameKeys(q, q') && forall i :: 0 <= i < |q| ==> q'[i].accessed == (q[i].accessed && !q[v].accessed && v <= i)
  }

  function RoundUp(a: nat): (r: nat)
    ensures a <= r < a + PGSIZE && r % PGSIZE == 0
  {
    (a + PGSIZE - 1) / PGSIZE * PGSIZE
  }

  /** Key k is that of a page of process pid in [lo, hi). */
  ghost predicate InRange(k: nat, pid: nat, lo: nat, hi: nat)
  {
    exists va: nat :: lo <= va < hi && va % PGSIZE == 0 && k == Key(va, pid)
  }

  /** Process pid gained exactly the pages in [lo, hi), filled with z; every other page is as it was. */
  ghost predicate Grown(m: map<nat, Page>, m': map<nat, Page>, pid: nat, lo: nat, hi: nat, z: Page)
  {
    && (forall k :: k in m ==> k in m' && m'[k] == m[k])
    && (forall va: nat :: lo <= va < hi && va % PGSIZE == 0 ==>
          Key(va, pid) in m' && m'[Key(va, pid)] == z)
    && (forall k :: k in m' && k !in m ==> InRange(k, pid, lo, hi))
  }

  /** Process pid has no page in [lo, hi). */
  ghost predicate Unmapped(keys: set<nat>, pid: nat, lo: nat, hi: nat)
  {
    forall va: nat :: lo <= va < hi && va % PGSIZE == 0 ==> Key(va, pid) !in keys
  }

  /** Every page of the other processes is as it was. */
  ghost predicate OthersKept(m: map<nat, Page>, m': map<nat, Page>, pid: nat)
  {
    forall p: nat, va: nat :: p != pid && p <= MAX_PID && va % PGSIZE == 0 ==>
      (Key(va, p) in m' <==> Key(va, p) in m) && (Key(va, p) in m ==> m'[Key(va, p)] == m[Key(va, p)])
  }

  /** Growth of one process does not touch the others, although all use the same addresses. */
  lemma GrownSparesOthers(m: map<nat, Page>, m': map<nat, Page>, pid: nat, lo: nat, hi: nat, z: Page)
    requires Grown(m, m', pid, lo, hi, z) && pid <= MAX_PID
    ensures OthersKept(m, m', pid)
  {
    forall p: nat, va: nat | p != pid && p <= MAX_PID && va % PGSIZE == 0 && Key(va, p) in m'
      ensures Key(va, p) in m
    {
      forall a: nat | a % PGSIZE == 0
        ensures Key(a, pid) != Key(va, p)
      {
        KeyInjective(a, pid, va, p);
      }
    }
  }

  lemma UnmappedStep(keys: set<nat>, pid: nat, lo: nat, hi: nat)
    requires Unmapped(keys, pid, lo, hi) && lo % PGSIZE == 0
    ensures Unmapped(keys + {Key(lo, pid)}, pid, lo + PGSIZE, hi)
  {
  }

  lemma GrownStep(m: map<nat, Page>, m': map<nat, Page>, pid: nat, lo: nat, i: nat, z: Page)
    requires Grown(m, m', pid, lo, i, z) && lo <= i && i % PGSIZE == 0 && Key(i, pid) !in m'
    ensures Grown(m, m'[Key(i, pid) := z], pid, lo, i + PGSIZE, z)
  {
    forall va: nat | va < i + PGSIZE && va % PGSIZE == 0
      ensures va <= i
    {
    }
    assert InRange(Key(i, pid), pid, lo, i + PGSIZE);
  }

  lemma NextBoundary(i: nat)
    requires i % PGSIZE == 0
    ensures (i + PGSIZE) % PGSIZE == 0
  {
  }

  /** Only page boundaries count in a range. */
  lemma GrownTo(m: map<nat, Page>, m': map<nat, Page>, pid: nat, lo: nat, i: nat, hi: nat, z: Page)
    requires Grown(m, m', pid, lo, i, z) && i % PGSIZE == 0 && hi <= i && (lo < i ==> i < hi + PGSIZE)
    ensures Grown(m, m', pid, lo, hi, z)
  {
    forall k: nat | InRange(k, pid, lo, i)
      ensures InRange(k, pid, lo, hi)
    {
      var va: nat :| lo <= va < i && va % PGSIZE == 0 && k == Key(va, pid);
      assert va < hi;
    }
  }

  function ZeroPage(): (p: Page)
    ensures |p| == 1024 && forall i :: 0 <= i < 1024 ==> p[i] == 0
  {
    seq(PGWORDS, _ => 0)
  }

  // ----- copyuvm -----

  /** What `copyuvm` asks for from address i on, by where the pages of the parent are. */
  ghost function CopyDemand(pt: map<nat, Pte>, pid: nat, i: nat, sz: nat, newTable: nat -> bool, slabs: nat): nat
    decreases sz - i
  {
    if i >= sz then 0
    else
      var present := Key(i, pid) in pt && pt[Key(i, pid)].present;
      CopyCost(present, newTable(i), i > 0, slabs)
      + CopyDemand(pt, pid, i + PGSIZE, sz, newTable, SlabsCopied(present, i > 0, slabs))
  }

  /** The same pages from i on ask for the same. */
  lemma {:induction false} SameDemand(pt: map<nat, Pte>, pt': map<nat, Pte>, pid: nat, i: nat, sz: nat,
                                      newTable: nat -> bool, slabs: nat)
    requires i % PGSIZE == 0 && SameFrom(pt, pt', pid, i, sz)
    ensures CopyDemand(pt', pid, i, sz, newTable, slabs) == CopyDemand(pt, pid, i, sz, newTable, slabs)
    decreases sz - i
  {
    if i < sz {
      NextBoundary(i);
      var present := Key(i, pid) in pt && pt[Key(i, pid)].present;
      SameDemand(pt, pt', pid, i + PGSIZE, sz, newTable, SlabsCopied(present, i > 0, slabs));
    }
  }

  ghost predicate SameFrom(pt: map<nat, Pte>, pt': map<nat, Pte>, pid: nat, i: nat, sz: nat)
  {
    forall va: nat :: i <= va < sz && va % PGSIZE == 0 ==>
      Key(va, pid) in pt && Key(va, pid) in pt' && pt'[Key(va, pid)] == pt[Key(va, pid)]
  }

  /** The child has copies of the parent's pages below hi, made in the states of mids, which lie behind
      r0; every page there was is as it was. */
  ghost predicate CopiedTo(m: map<nat, Page>, m': map<nat, Page>, parent: nat, child: nat, hi: nat, r0: Run,
                           mids: map<nat, Run>)
  {
    && (forall k :: k in m ==> k in m' && m'[k] == m[k])
    && (forall va: nat :: va < hi && va % PGSIZE == 0 ==> CopiedAt(m, m', parent, child, va, r0, mids))
  }

  ghost predicate CopiedAt(m: map<nat, Page>, m': map<nat, Page>, parent: nat, child: nat, va: nat, r0: Run,
                           mids: map<nat, Run>)
  {
    && va in mids && Since(r0, mids[va]) && Key(va, parent) in m && Key(va, child) in m'
    && Key(va, parent) in mids[va].s.flat && mids[va].s.flat[Key(va, parent)] == m[Key(va, parent)]
    && m'[Key(va, child)] == CopyOf(mids[va].s, Key(va, parent))
  }

  /** A frame was free in each of these states. */
  ghost predicate AllFree(mids: map<nat, Run>, hi: nat)
  {
    forall va: nat :: va < hi && va % PGSIZE == 0 ==> va in mids && mids[va].s.free != []
  }

  /** Then every copy is true. */
  lemma TrueCopies(m: map<nat, Page>, m': map<nat, Page>, parent: nat, child: nat, hi: nat, r0: Run,
                   mids: map<nat, Run>, va: nat)
    requires CopiedTo(m, m', parent, child, hi, r0, mids) && AllFree(mids, hi) && va < hi && va % PGSIZE == 0
    ensures Key(va, parent) in m && Key(va, child) in m' && m'[Key(va, child)] == m[Key(va, parent)]
  {
    assert CopiedAt(m, m', parent, child, va, r0, mids);
  }

  lemma CopiedStep(m: map<nat, Page>, m': map<nat, Page>, parent: nat, child: nat, i: nat, r0: Run,
                   mids: map<nat, Run>, mid: Run)
    requires CopiedTo(m, m', parent, child, i, r0, mids) && i % PGSIZE == 0 && Key(i, child) !in m'
    requires Key(i, parent) in m' && OthersKept(m, m', child) && parent != child && parent <= MAX_PID
    requires mid.s.flat == m' && Since(r0, mid)
    ensures var m'' := m'[Key(i, child) := CopyOf(mid.s, Key(i, parent))];
      CopiedTo(m, m'', parent, child, i + PGSIZE, r0, mids[i := mid])
  {
    var m2, mids' := m'[Key(i, child) := CopyOf(mid.s, Key(i, parent))], mids[i := mid];
    forall va: nat | va < i + PGSIZE && va % PGSIZE == 0
      ensures CopiedAt(m, m2, parent, child, va, r0, mids')
    {
      assert va <= i;
      assert va < i ==> CopiedAt(m, m', parent, child, va, r0, mids);
    }
  }

  lemma OthersStep(m: map<nat, Page>, m': map<nat, Page>, child: nat, i: nat, page: Page)
    requires OthersKept(m, m', child) && i % PGSIZE == 0 && child <= MAX_PID
    ensures OthersKept(m, m'[Key(i, child) := page], child)
  {
    forall p: nat, va: nat | p != child && p <= MAX_PID && va % PGSIZE == 0
      ensures Key(va, p) != Key(i, child)
    {
      KeyInjective(va, p, i, child);
    }
  }

  lemma KeysFrom(pt: map<nat, Pte>, pt': map<nat, Pte>, pid: nat, i: nat, sz: nat)
    requires SameFrom(pt, pt, pid, i, sz) && pt.Keys <= pt'.Keys
    ensures SameFrom(pt', pt', pid, i + PGSIZE, sz)
  {
  }

  lemma OthersFrom(pt: map<nat, Pte>, pt': map<nat, Pte>, pid: nat, i: nat, sz: nat)
    requires SameFrom(pt, pt, pid, i, sz) && forall k :: k in pt && k != Key(i, pid) ==> k in pt' && pt'[k] == pt[k]
    ensures SameFrom(pt, pt', pid, i + PGSIZE, sz)
  {
  }

  ghost predicate CopyingIn(pt: map<nat, Pte>, flat: map<nat, Page>, free: nat, slabs: nat, parent: nat, child: nat,
                            i: nat, sz: nat, newTable: nat -> bool, m: map<nat, Page>, r0: Run,
                            mids: map<nat, Run>, enough: bool)
  {
    && SameFrom(pt, pt, parent, i, sz) && Unmapped(pt.Keys, child, i, sz) && OthersKept(m, flat, child)
    && CopiedTo(m, flat, parent, child, i, r0, mids)
    && (enough ==> CopyDemand(pt, parent, i, sz, newTable, slabs) <= free && AllFree(mids, i))
  }

  lemma CopyNext(pt: map<nat, Pte>, pt': map<nat, Pte>, flat: map<nat, Page>, flat': map<nat, Page>,
                 free: nat, free': nat, slabs: nat, slabs': nat, parent: nat, child: nat, i: nat, sz: nat,
                 newTable: nat -> bool, m: map<nat, Page>, r0: Run, mids: map<nat, Run>, mid: Run, enough: bool)
    requires parent <= MAX_PID && child <= MAX_PID && parent != child && i % PGSIZE == 0 && i < sz
    requires CopyingIn(pt, flat, free, slabs, parent, child, i, sz, newTable, m, r0, mids, enough)
    requires Key(i, parent) in pt && Key(i, parent) in flat && Key(i, child) !in flat && Since(r0, mid)
    requires mid.s.flat == flat && flat' == flat[Key(i, child) := CopyOf(mid.s, Key(i, parent))]
    requires pt'.Keys == pt.Keys + {Key(i, child)}
    requires enough ==> mid.s.free != []
    requires enough ==> forall k :: k in pt && k != Key(i, parent) ==> pt'[k] == pt[k]
    requires enough ==> slabs' == SlabsCopied(pt[Key(i, parent)].present, i > 0, slabs)
    requires enough ==> free' == free - CopyCost(pt[Key(i, parent)].present, newTable(i), i > 0, slabs)
    ensures CopyingIn(pt', flat', free', slabs', parent, child, i + PGSIZE, sz, newTable, m, r0, mids[i := mid], enough)
  {
    UnmappedStep(pt.Keys, child, i, sz);
    OthersStep(m, flat, child, i, flat'[Key(i, child)]);
    KeysFrom(pt, pt', parent, i, sz);
    CopiedStep(m, flat, parent, child, i, r0, mids, mid);
    if enough {
      OthersFrom(pt, pt', parent, i, sz);
      NextBoundary(i);
      SameDemand(pt, pt', parent, i + PGSIZE, sz, newTable, slabs');
      FreeStep(mids, i, mid);
    }
  }

  lemma FreeStep(mids: map<nat, Run>, i: nat, mid: Run)
    requires AllFree(mids, i) && i % PGSIZE == 0 && mid.s.free != []
    ensures AllFree(mids[i := mid], i + PGSIZE)
  {
    forall va: nat | va < i + PGSIZE && va % PGSIZE == 0
      ensures va in mids[i := mid] && mids[i := mid][va].s.free != []
    {
      assert va <= i;
    }
  }

  /** The source frame of a copy behind the `kalloc` for it. */
  lemma CopySource(r: Run, frames: map<nat, Page>, f: nat, key: nat)
    requires Reached(r) && key in r.s.pt && r.s.pt[key].present
    requires r.s.free != [] ==> frames == r.s.frames
    requires r.s.free == [] ==> r.s.queue != [] && r.s.queue[Picked(r.s.queue)].key in r.s.pt
    requires r.s.free == [] ==> f == r.s.pt[r.s.queue[Picked(r.s.queue)].key].frame && f in r.s.frames
    requires r.s.free == [] ==> frames == r.s.frames[f := Clobber(r.s.frames[f], 0)]
    ensures key in r.s.flat && r.s.pt[key].frame in frames && frames[r.s.pt[key].frame] == CopyOf(r.s, key)
  {
    InvHolds(r);
  }

  ghost predicate UnfoldAt(i: nat) { true }

  class Memory {
    var frames: map<nat, Page>
    var freelist: seq<nat>
    var nfreeblock: nat
    var pt: map<nat, Pte>
    var queue: seq<Entry>
    var swapMap: seq<nat>
    var slots: seq<Page>
    var nslabs: nat
    ghost var run: Run

    ghost predicate Valid()
      reads this
    {
      && Reached(run) && nfreeblock == |freelist|
      && run.s == run.s.(frames := frames, free := freelist, pt := pt, queue := queue,
                         swapMap := swapMap, slots := slots)
    }

    /** `freerange` over the pages [lo, hi), with empty swap space. */
    constructor (lo: nat, hi: nat, contents: map<nat, Page>, nslots: nat)
      requires lo <= hi && forall f: nat :: lo <= f < hi ==> f in contents
      ensures Valid() && nfreeblock == hi - lo && Flat() == map[]
      ensures forall f :: f in freelist <==> lo <= f < hi
      ensures queue == [] && pt == map[] && nslabs == 0
      ensures |swapMap| == nslots && forall i :: 0 <= i < nslots ==> swapMap[i] == 0
    {
      frames, freelist, nfreeblock := contents, [], 0;
      pt, queue, swapMap, nslabs := map[], [], seq(nslots, _ => 0), 0;
      slots := seq(nslots, _ => seq(PGWORDS, _ => 0));
      new;
      var p := lo;
      while p < hi
        invariant lo <= p <= hi && nfreeblock == |freelist| == p - lo
        invariant forall i :: 0 <= i < |freelist| ==> freelist[i] == p - 1 - i
        invariant forall f: nat :: lo <= f < hi ==> f in frames
        invariant pt == map[] && queue == []
        invariant |swapMap| == |slots| == nslots && nslabs == 0 && forall i :: 0 <= i < |swapMap| ==> swapMap[i] == 0
      {
        frames := frames[p := Clobber(frames[p], if freelist == [] then 0 else freelist[0])];
        freelist := [p] + freelist;
        nfreeblock := nfreeblock + 1;
        p := p + 1;
      }
      run := Start(Vm(frames, freelist, {}, pt, queue, swapMap, slots, map[]));
      ReachedIsRun(run);
      forall f: nat | lo <= f < hi
        ensures f in freelist
      {
        assert f == freelist[hi - 1 - f];
      }
    }

    /** The memory the processes believe in. */
    ghost function Flat(): map<nat, Page>
      reads this
    {
      run.s.flat
    }

    /** No frame is free, and no page can be evicted. */
    ghost predicate Exhausted()
      reads this
    {
      freelist == [] && (queue == [] || 0 !in swapMap)
    }

    ghost function Counters(): Supply
      reads this
    {
      Supply(|freelist|, |queue|, FreeSlots(swapMap), nslabs)
    }

    /** `sel_page`: second chance over the page queue. */
    method SelPage() returns (v: nat)
      requires Valid() && queue != []
      modifies this`queue, this`run
      ensures Valid() && SecondChance(old(queue), v) && BitsCleared(old(queue), queue, v) && v == Picked(old(queue))
      ensures run.s == old(run.s).(queue := queue) && Since(old(run), run)
    {
      ghost var q := queue;
      v := 0;
      while v < |queue| && queue[v].accessed
        invariant run == old(run) && v <= |queue| && SameKeys(q, queue)
        invariant forall i :: 0 <= i < v ==> q[i].accessed && !queue[i].accessed
        invariant forall i :: v <= i < |queue| ==> queue[i] == q[i]
      {
        queue := queue[v := Entry(queue[v].key, false)];
        v := v + 1;
      }
      if v == |queue| {
        v := 0;
      }
      ChanceIsPicked(q, v);
      run := Extend(run, Reference(queue));
    }

    /** `alloc_slot`: the first free slot, if there is one. */
    method AllocSlot() returns (panicked: bool, slot: nat)
      ensures panicked <==> 0 !in swapMap
      ensures !panicked ==> slot < |swapMap| && swapMap[slot] == 0 && 0 !in swapMap[..slot]
    {
      slot := 0;
      while slot < |swapMap| && swapMap[slot] != 0
        invariant slot <= |swapMap| && 0 !in swapMap[..slot]
      {
        slot := slot + 1;
      }
      panicked := slot == |swapMap|;
    }

    /** `find_slot`. */
    method FindSlot(key: nat) returns (panicked: bool, slot: nat)
      ensures panicked <==> key !in swapMap
      ensures !panicked ==> slot < |swapMap| && swapMap[slot] == key && key !in swapMap[..slot]
    {
      slot := 0;
      while slot < |swapMap| && swapMap[slot] != key
        invariant slot <= |swapMap| && key !in swapMap[..slot]
      {
        slot := slot + 1;
      }
      panicked := slot == |swapMap|;
    }

    /** `free_page_slot`: the first slot with this key, if there is one, becomes free. */
    method FreePageSlot(key: nat)
      modifies this`swapMap
      ensures swapMap == Released(old(swapMap), key)
    {
      var i := 0;
      while i < |swapMap|
        invariant i <= |swapMap| && key !in swapMap[..i] && swapMap == old(swapMap)
      {
        if swapMap[i] == key {
          assert FirstSlot(swapMap, key) == i;
          swapMap := swapMap[i := 0];
          return;
        }
        i := i + 1;
      }
    }

    /** `free_page`: drop the first queue entry with this key, if there is one, and with the flag set
        its slot as well. */
    method FreePage(key: nat, flagSlot: bool)
      modifies this`queue, this`swapMap
      ensures var i := FirstEntry(old(queue), key);
        && queue == Without(old(queue), i)
        && swapMap == if i < |old(queue)| && flagSlot then Released(old(swapMap), key) else old(swapMap)
    {
      var i := 0;
      while i < |queue|
        invariant i <= |queue| && queue == old(queue) && swapMap == old(swapMap)
        invariant forall j :: 0 <= j < i ==> queue[j].key != key
      {
        if queue[i].key == key {
          assert FirstEntry(queue, key) == i;
          if flagSlot {
            FreePageSlot(key);
          }
          queue := queue[..i] + queue[i + 1..];
          return;
        }
        i := i + 1;
      }
    }

    /** The second half of `page_out`: the victim goes to a slot, its frame to the free list. */
    method WriteOut(v: nat, slot: nat)
      requires Valid() && Enabled(run.s, Evict(v, slot))
      modifies this`frames, this`freelist, this`nfreeblock, this`pt, this`queue, this`swapMap, this`slots, this`run
      ensures Valid() && run == Then(old(run), Evict(v, slot), Step(old(run.s), Evict(v, slot)))
    {
      QueueFacts(run, v);
      ghost var r := Extend(run, Evict(v, slot));
      var key := queue[v].key;
      var f := pt[key].frame;
      pt := pt[key := Pte(f, false)];
      swapMap := swapMap[slot := key];
      slots := slots[slot := frames[f]];
      frames := frames[f := Clobber(frames[f], if freelist == [] then 0 else freelist[0])];
      freelist := [f] + freelist;
      nfreeblock := nfreeblock + 1;
      FreePage(key, false);
      run := r;
    }

    /** `page_out`; v is the queue position of the page that leaves. */
    method PageOut() returns (panicked: bool, ghost v: nat)
      requires Valid()
      modifies this`frames, this`freelist, this`nfreeblock, this`pt, this`queue, this`swapMap, this`slots, this`run
      ensures panicked <==> old(queue) == [] || 0 !in old(swapMap)
      ensures Valid() && Since(old(run), run) && (panicked ==> Flat() == old(Flat()) && freelist == old(freelist))
      ensures panicked ==> |queue| == old(|queue|) && swapMap == old(swapMap)
      ensures !panicked ==> SecondChance(old(queue), v) && v == Picked(old(queue))
      ensures !panicked ==> old(queue)[v].key in old(pt) && old(pt)[old(queue)[v].key].frame in old(frames)
      ensures !panicked ==>
        var f := old(pt)[old(queue)[v].key].frame;
        && frames == old(frames)[f := Clobber(old(frames)[f], if old(freelist) == [] then 0 else old(freelist)[0])]
        && freelist == [f] + old(freelist)
      ensures !panicked ==> Spared(old(run.s), run.s) && KernelKept(old(run.s), run.s)
      ensures !panicked ==> pt.Keys == old(pt.Keys) && run.s.kernel == old(run.s.kernel)
      ensures !panicked ==> frames.Keys == old(frames.Keys)
      ensures !panicked ==>
        Counters() == Supply(old(|freelist|) + 1, old(|queue|) - 1, old(FreeSlots(swapMap)) - 1, nslabs)
      ensures !panicked ==> forall k :: k in old(pt) && k != old(queue)[v].key ==> pt[k] == old(pt)[k]
    {
      v := 0;
      if queue == [] {
        return true, 0;
      }
      var w := SelPage();
      v := w;
      QueueFacts(run, w);
      var slot;
      panicked, slot := AllocSlot();
      if !panicked {
        EvictSpares(run.s, w, slot);
        EvictCounts(run.s, w, slot);
        WriteOut(w, slot);
      }
    }

    /** `kalloc`: one frame off the free list, evicting a page first if the list is empty.  With
        swapping on it never returns null. */
    method Kalloc() returns (panicked: bool, f: nat)
      requires Valid()
      modifies this`frames, this`freelist, this`nfreeblock, this`pt, this`queue, this`swapMap, this`slots, this`run
      ensures Valid() && Since(old(run), run) && (panicked ==> Exhausted())
      ensures !panicked ==> Spared(old(run.s), run.s) && pt.Keys == old(pt.Keys)
      ensures !panicked ==> f in frames && f !in old(run.s.kernel) && run.s.kernel == old(run.s.kernel) + {f}
      ensures !panicked ==> KernelKept(old(run.s), run.s)
      ensures panicked <==> old(freelist) == [] && (old(queue) == [] || 0 !in old(swapMap))
      ensures if panicked then TakeFrame(old(Counters())).None? else TakeFrame(old(Counters())) == Some(Counters())
      ensures old(freelist) != [] ==> pt == old(pt) && frames == old(frames)
      ensures old(freelist) != [] ==> f == old(freelist)[0] && freelist == old(freelist)[1..]
      ensures !panicked && old(freelist) == [] ==> old(queue) != [] && old(queue)[Picked(old(queue))].key in old(pt)
      ensures !panicked && old(freelist) == [] ==>
        f == old(pt)[old(queue)[Picked(old(queue))].key].frame && f in old(frames) && freelist == []
      ensures !panicked && old(freelist) == [] ==> frames == old(frames)[f := Clobber(old(frames)[f], 0)]
      ensures !panicked ==> frames.Keys == old(frames.Keys)
    {
      panicked, f := false, 0;
      if nfreeblock == 0 {
        ghost var v;
        panicked, v := PageOut();
        if panicked {
          return;
        }
      }
      FreeFacts(run);
      ghost var r := Extend(run, Take);
      f := freelist[0];
      freelist := freelist[1..];
      nfreeblock := nfreeblock - 1;
      run := r;
    }

    /** `alloc_slab`, counting slabs: an empty pool takes a page for good and carves it up. */
    method AllocSlab() returns (panicked: bool)
      requires Valid()
      modifies this
      ensures Valid() && Since(old(run), run) && (panicked ==> Exhausted())
      ensures !panicked ==> Spared(old(run.s), run.s) && pt.Keys == old(pt.Keys)
      ensures !panicked ==> old(run.s.kernel) <= run.s.kernel
      ensures if panicked then TakeSlab(old(Counters())).None? else TakeSlab(old(Counters())) == Some(Counters())
      ensures old(freelist) != [] || old(nslabs) > 0 ==> pt == old(pt)
    {
      panicked := false;
      if nslabs == 0 {
        var f;
        panicked, f := Kalloc();
        if panicked {
          return;
        }
        nslabs := Slab.PERPAGE;
      }
      nslabs := nslabs - 1;
    }

    /** `add_page`: the page becomes the last one of the queue.  Taking a slab may evict another
        page, never the one being added. */
    method AddPage(key: nat, accessed: bool) returns (panicked: bool)
      requires Valid() && key in pt && pt[key].present && NotQueued(run.s, key)
      modifies this
      ensures Valid() && Since(old(run), run) && (panicked ==> Exhausted())
      ensures !panicked ==> Flat() == old(Flat()) && pt.Keys == old(pt.Keys)
      ensures !panicked ==> pt[key] == old(pt[key]) && old(run.s.kernel) <= run.s.kernel
      ensures !panicked ==> queue != [] && queue[|queue| - 1] == Entry(key, accessed)
      ensures if panicked then AddOne(old(Counters())).None? else AddOne(old(Counters())) == Some(Counters())
      ensures old(freelist) != [] || old(nslabs) > 0 ==> pt == old(pt)
    {
      panicked := AllocSlab();
      if panicked {
        return;
      }
      ghost var r := Extend(run, Enqueue(key, accessed));
      queue := queue + [Entry(key, accessed)];
      run := r;
    }

    /** `page_in` for a page that is not present; `accessed` is the hardware's bit in its entry. */
    method PageIn(key: nat, accessed: bool) returns (panicked: bool)
      requires Valid() && key in pt && !pt[key].present
      modifies this
      ensures Valid() && Since(old(run), run) && (panicked ==> Exhausted())
      ensures !panicked ==> Flat() == old(Flat()) && pt.Keys == old(pt.Keys) && pt[key].present
      ensures if panicked then FaultIn(old(Counters())).None? else FaultIn(old(Counters())) == Some(Counters())
      ensures !panicked && old(|freelist|) >= 1 + (if old(nslabs) == 0 then 1 else 0) ==> pt == old(pt)[key := pt[key]]
    {
      PageFacts(run, key);
      var f, slot;
      panicked, f := Kalloc();
      if panicked {
        return;
      }
      PageFacts(run, key);
      panicked, slot := FindSlot(key);
      ReadIn(key, slot, f);
      ghost var r := run;
      panicked := AddPage(key, accessed);
      SinceSince(old(run), r, run);
    }

    /** The middle of `page_in`: read the slot into frame f, release it and set the table entry. */
    method ReadIn(key: nat, slot: nat, f: nat)
      requires Valid() && Enabled(run.s, Load(key, slot, f))
      modifies this`frames, this`freelist, this`nfreeblock, this`pt, this`queue, this`swapMap, this`slots, this`run
      ensures Valid() && run == Then(old(run), Load(key, slot, f), Step(old(run.s), Load(key, slot, f)))
      ensures Counters() == old(Counters()).(slots := old(FreeSlots(swapMap)) + 1)
    {
      SlotUsed(swapMap, slot, 0);
      ghost var r := Extend(run, Load(key, slot, f));
      frames := frames[f := slots[slot]];
      swapMap := swapMap[slot := 0];
      pt := pt[key := Pte(f, true)];
      run := r;
    }

    /** A user write to a whole page, with the fault it may take first. */
    method UserWrite(key: nat, page: Page, accessed: bool) returns (panicked: bool)
      requires Valid() && key in pt
      modifies this
      ensures !panicked ==> Valid() && Flat() == old(Flat())[key := page]
      ensures panicked <==> !old(pt[key]).present && FaultIn(old(Counters())).None?
    {
      panicked := false;
      if !pt[key].present {
        panicked := PageIn(key, accessed);
        if panicked {
          return;
        }
      }
      ghost var r := Extend(run, Write(key, page));
      frames := frames[pt[key].frame := page];
      run := r;
    }

    /** A user read, with the fault it may take first: always the last value written. */
    method UserRead(key: nat, accessed: bool) returns (panicked: bool, page: Page)
      requires Valid() && key in pt
      modifies this
      ensures !panicked ==> Valid() && Flat() == old(Flat()) && key in Flat() && page == Flat()[key]
      ensures panicked <==> !old(pt[key]).present && FaultIn(old(Counters())).None?
    {
      panicked, page := false, seq(PGWORDS, _ => 0);
      if !pt[key].present {
        panicked := PageIn(key, accessed);
        if panicked {
          return;
        }
      }
      PageFacts(run, key);
      page := frames[pt[key].frame];
    }

    /** Put the zeroed frame f, held by the kernel, into the tables as page `key`. */
    method MapPage(key: nat, f: nat)
      requires Valid() && Enabled(run.s, Map(key, f))
      modifies this`pt, this`run
      ensures Valid() && run == Then(old(run), Map(key, f), Step(old(run.s), Map(key, f)))
    {
      ghost var r := Extend(run, Map(key, f));
      pt := pt[key := Pte(f, true)];
      run := r;
    }

    /** The frames of a new page: one filled with `zero`, and maybe one for a table. */
    method TakeFrames(newTable: bool, zero: Page) returns (panicked: bool, f: nat)
      requires Valid()
      modifies this`frames, this`freelist, this`nfreeblock, this`pt, this`queue, this`swapMap, this`slots, this`run
      ensures !panicked ==> Valid() && Flat() == old(Flat()) && pt.Keys == old(pt.Keys)
      ensures !panicked ==> f in run.s.kernel && f in frames && frames[f] == zero
      ensures if panicked then TakePage(old(Counters()), newTable).None?
              else TakePage(old(Counters()), newTable) == Some(Counters())
    {
      panicked, f := Kalloc();
      if panicked {
        return;
      }
      ghost var r := Extend(run, Fill(f, zero));
      frames, run := frames[f := zero], r;
      if newTable {
        var t;
        panicked, t := Kalloc();
      }
    }

    /** One round of the loop in `allocuvm`: a page filled with `zero` for `key`, maybe with a fresh
        table page. */
    method GrowPage(key: nat, newTable: bool, evictable: bool, zero: Page) returns (panicked: bool)
      requires Valid() && key !in pt && key != 0
      modifies this
      ensures !panicked ==> Valid() && Flat() == old(Flat())[key := zero] && pt.Keys == old(pt.Keys) + {key}
      ensures if panicked then GrowOne(old(Counters()), newTable, evictable).None?
              else GrowOne(old(Counters()), newTable, evictable) == Some(Counters())
    {
      var f;
      panicked, f := TakeFrames(newTable, zero);
      if panicked {
        return;
      }
      UnmappedFacts(run, key);
      MapPage(key, f);
      if evictable {
        panicked := AddPage(key, false);
      }
    }

    /** The copy itself: a frame is taken, and then the source frame pa is copied into it.  If the page
        in it was evicted for that, the copy has the words that `kfree` wrote. */
    method CopyFrame(pa: nat, newTable: bool, ghost key: nat) returns (panicked: bool, f: nat)
      requires Valid() && key in pt && pt[key] == Pte(pa, true)
      modifies this`frames, this`freelist, this`nfreeblock, this`pt, this`queue, this`swapMap, this`slots, this`run
      ensures Valid() && Since(old(run), run) && (panicked ==> Exhausted())
      ensures !panicked ==> Flat() == old(Flat()) && pt.Keys == old(pt.Keys)
      ensures !panicked ==> f in run.s.kernel && f in frames && key in old(Flat())
      ensures !panicked ==> frames[f] == CopyOf(old(run.s), key)
      ensures if panicked then TakePage(old(Counters()), newTable).None?
              else TakePage(old(Counters()), newTable) == Some(Counters())
      ensures !panicked && |old(freelist)| >= (if newTable then 2 else 1) ==> pt == old(pt)
    {
      PageFacts(run, key);
      panicked, f := Kalloc();
      if panicked {
        return;
      }
      CopySource(old(run), frames, f, key);
      ghost var r1 := run;
      ghost var r := Extend(run, Fill(f, frames[pa]));
      frames, run := frames[f := frames[pa]], r;
      if newTable {
        var t;
        panicked, t := Kalloc();
        SinceSince(r1, r, run);
        SinceSince(old(run), r1, run);
      } else {
        SinceSince(old(run), r1, run);
      }
    }

    /** One round of `copyuvm`, in which the frame for the copy was taken in state mid.s: that is the
        first state for a page that was present, and one behind the fault for a page that was out. */
    method CopyPage(src: nat, dst: nat, newTable: bool, evictable: bool, accessed: bool)
      returns (panicked: bool, ghost mid: Run)
      requires Valid() && src in pt && dst !in pt && dst != 0
      modifies this
      ensures Valid() && Since(old(run), run) && (panicked ==> Exhausted())
      ensures !panicked ==> Since(old(run), mid) && Since(mid, run) && (old(pt)[src].present ==> mid == old(run))
      ensures !panicked ==> pt.Keys == old(pt.Keys) + {dst} && mid.s.flat == old(Flat())
      ensures !panicked ==> src in old(Flat()) && Flat() == old(Flat())[dst := CopyOf(mid.s, src)]
      ensures if panicked then CopyOne(old(Counters()), old(pt)[src].present, newTable, evictable).None?
              else CopyOne(old(Counters()), old(pt)[src].present, newTable, evictable) == Some(Counters())
      ensures old(HasFree(src, newTable, evictable)) ==> !panicked && mid.s.free != []
      ensures old(HasFree(src, newTable, evictable)) ==> forall k :: k in old(pt) && k != src ==> pt[k] == old(pt)[k]
    {
      panicked, mid := false, run;
      PageFacts(run, src);
      if HasFree(src, newTable, evictable) {
        CopyFromFree(Counters(), pt[src].present, newTable, evictable);
        if !pt[src].present {
          FaultFromFree(Counters());
        }
      }
      if !pt[src].present {
        panicked := PageIn(src, accessed);
        if panicked {
          return;
        }
      }
      mid := run;
      panicked := CopyPresent(src, dst, newTable, evictable);
      SinceSince(old(run), mid, run);
    }

    /** The free frames suffice for this round. */
    ghost predicate HasFree(src: nat, newTable: bool, evictable: bool)
      reads this
      requires src in pt
    {
      CopyCost(pt[src].present, newTable, evictable, nslabs) <= |freelist|
    }

    method CopyPresent(src: nat, dst: nat, newTable: bool, evictable: bool) returns (panicked: bool)
      requires Valid() && src in pt && pt[src].present && dst !in pt && dst != 0
      modifies this
      ensures Valid() && Since(old(run), run) && (panicked ==> Exhausted())
      ensures !panicked ==> pt.Keys == old(pt.Keys) + {dst}
      ensures !panicked ==> src in old(Flat()) && Flat() == old(Flat())[dst := CopyOf(old(run.s), src)]
      ensures if panicked then GrowOne(old(Counters()), newTable, evictable).None?
              else GrowOne(old(Counters()), newTable, evictable) == Some(Counters())
      ensures old(HasFree(src, newTable, evictable)) ==> forall k :: k in old(pt) ==> k in pt && pt[k] == old(pt)[k]
    {
      if HasFree(src, newTable, evictable) {
        GrowFromFree(Counters(), newTable, evictable);
      }
      var f;
      panicked, f := CopyFrame(pt[src].frame, newTable, src);
      if panicked {
        return;
      }
      UnmappedFacts(run, dst);
      ghost var r := run;
      MapPage(dst, f);
      SinceSince(old(run), r, run);
      if evictable {
        r := run;
        panicked := AddPage(dst, false);
        SinceSince(old(run), r, run);
      }
    }

    /** `copyuvm`, behind its `setupkvm`.  mids gives for each page the state in which the frame for its
        copy was taken: the copy is the parent's page unless, in that state, no frame was free and the
        page itself had to go.  With a free frame for everything that never happens.  A panic means that
        no frame can be had. */
    method CopyUvm(parent: nat, child: nat, sz: nat, newTable: nat -> bool, accessed: bool)
      returns (panicked: bool, ghost mids: map<nat, Run>)
      requires Valid() && 1 <= parent <= MAX_PID && 1 <= child <= MAX_PID && parent != child
      requires SameFrom(pt, pt, parent, 0, sz) && Unmapped(pt.Keys, child, 0, sz)
      modifies this
      ensures Valid() && Since(old(run), run) && (panicked ==> Exhausted())
      ensures !panicked ==> OthersKept(old(Flat()), Flat(), child)
      ensures !panicked ==> CopiedTo(old(Flat()), Flat(), parent, child, sz, old(run), mids)
      ensures CopyDemand(old(pt), parent, 0, sz, newTable, old(nslabs)) <= old(|freelist|) ==>
        !panicked && AllFree(mids, sz)
    {
      panicked, mids := false, map[];
      var i := 0;
      ghost var m, enough := Flat(), CopyDemand(pt, parent, 0, sz, newTable, nslabs) <= |freelist|;
      while i < sz
        invariant Valid() && i % PGSIZE == 0 && Since(old(run), run)
        invariant Copying(parent, child, i, sz, newTable, m, old(run), mids, enough)
        decreases sz - i
      {
        NextBoundary(i);
        panicked, mids := CopyRound(parent, child, i, sz, newTable, accessed, m, old(run), mids, enough);
        if panicked {
          return;
        }
        i := i + PGSIZE;
      }
    }

    /** Behind the rounds below i of `copyuvm`. */
    ghost predicate Copying(parent: nat, child: nat, i: nat, sz: nat, newTable: nat -> bool, m: map<nat, Page>,
                            r0: Run, mids: map<nat, Run>, enough: bool)
      reads this
    {
      CopyingIn(pt, Flat(), |freelist|, nslabs, parent, child, i, sz, newTable, m, r0, mids, enough)
    }

    method CopyRound(parent: nat, child: nat, i: nat, ghost sz: nat, newTable: nat -> bool, accessed: bool,
                     ghost m: map<nat, Page>, ghost r0: Run, ghost mids: map<nat, Run>, ghost enough: bool)
      returns (panicked: bool, ghost mids': map<nat, Run>)
      requires Valid() && 1 <= parent <= MAX_PID && 1 <= child <= MAX_PID
      requires parent != child && i % PGSIZE == 0 && i < sz && Since(r0, run)
      requires Copying(parent, child, i, sz, newTable, m, r0, mids, enough)
      modifies this
      ensures Valid() && Since(r0, run) && (panicked ==> Exhausted())
      ensures enough ==> !panicked
      ensures !panicked ==> Copying(parent, child, i + PGSIZE, sz, newTable, m, r0, mids', enough)
    {
      mids' := mids;
      PageFacts(run, Key(i, parent));
      UnmappedFacts(run, Key(i, child));
      ghost var mid;
      if enough {
        CopyFromFree(Counters(), pt[Key(i, parent)].present, newTable(i), i > 0);
      }
      panicked, mid := CopyPage(Key(i, parent), Key(i, child), newTable(i), i > 0, accessed);
      SinceSince(r0, old(run), run);
      if !panicked {
        SinceSince(r0, old(run), mid);
        mids' := mids[i := mid];
        CopyNext(old(pt), pt, old(Flat()), Flat(), old(|freelist|), |freelist|, old(nslabs), nslabs,
                 parent, child, i, sz, newTable, m, r0, mids, mid, enough);
      }
    }

    /** The loop of `allocuvm`; the first page is never entered in the page queue. */
    method GrowRange(pid: nat, lo: nat, hi: nat, newTable: nat -> bool, zero: Page) returns (panicked: bool)
      requires Valid() && 1 <= pid && lo % PGSIZE == 0
      requires Unmapped(pt.Keys, pid, lo, hi)
      modifies this
      ensures !panicked ==> Valid() && Grown(old(Flat()), Flat(), pid, lo, hi, zero)
      ensures if panicked then GrowAll(old(Counters()), lo, lo, hi, newTable).None?
              else GrowAll(old(Counters()), lo, lo, hi, newTable) == Some(Counters())
    {
      panicked := false;
      var i := lo;
      GrowingIs(pid, lo, i, hi, zero, old(Flat()));
      while i < hi
        invariant Valid() && lo <= i && i % PGSIZE == 0 && (lo < i ==> i < hi + PGSIZE)
        invariant Growing(pid, lo, i, hi, zero, old(Flat()))
        invariant GrowAll(Counters(), lo, i, hi, newTable) == GrowAll(old(Counters()), lo, lo, hi, newTable)
        decreases hi - i
      {
        NextBoundary(i);
        panicked := GrowRound(pid, lo, i, hi, newTable, zero, old(Flat()));
        if panicked {
          return;
        }
        i := i + PGSIZE;
      }
      GrowingIs(pid, lo, i, hi, zero, old(Flat()));
      GrownTo(old(Flat()), Flat(), pid, lo, i, hi, zero);
    }

    /** Process pid has grown up to i and has nothing from there to hi.  The quantifier keeps this
        folded except where `UnfoldAt` is mentioned. */
    ghost predicate Growing(pid: nat, lo: nat, i: nat, hi: nat, zero: Page, m: map<nat, Page>)
      reads this
    {
      forall k {:trigger UnfoldAt(k)} :: k == i ==> Unmapped(pt.Keys, pid, k, hi) && Grown(m, Flat(), pid, lo, k, zero)
    }

    lemma GrowingIs(pid: nat, lo: nat, i: nat, hi: nat, zero: Page, m: map<nat, Page>)
      ensures Growing(pid, lo, i, hi, zero, m) <==> Unmapped(pt.Keys, pid, i, hi) && Grown(m, Flat(), pid, lo, i, zero)
    {
      assert UnfoldAt(i);
    }

    method GrowRound(pid: nat, lo: nat, i: nat, ghost hi: nat, newTable: nat -> bool, zero: Page,
                     ghost m: map<nat, Page>)
      returns (panicked: bool)
      requires Valid() && 1 <= pid && lo <= i < hi && i % PGSIZE == 0
      requires Growing(pid, lo, i, hi, zero, m)
      modifies this
      ensures !panicked ==> Valid() && Growing(pid, lo, i + PGSIZE, hi, zero, m)
      ensures if panicked then GrowAll(old(Counters()), lo, i, hi, newTable).None?
              else GrowAll(Counters(), lo, i + PGSIZE, hi, newTable) == GrowAll(old(Counters()), lo, i, hi, newTable)
    {
      GrowingIs(pid, lo, i, hi, zero, m);
      UnmappedFacts(run, Key(i, pid));
      UnmappedStep(pt.Keys, pid, i, hi);
      GrownStep(m, Flat(), pid, lo, i, zero);
      panicked := GrowPage(Key(i, pid), newTable(i), i > lo, zero);
      GrowingIs(pid, lo, i + PGSIZE, hi, zero, m);
    }

    /** `allocuvm`.  newTable(va) tells whether the directory lacks a table for va; a result of 0
        means that the request was refused. */
    method AllocUvm(pid: nat, startva: nat, endva: nat, newTable: nat -> bool) returns (panicked: bool, r: nat)
      requires Valid() && 1 <= pid <= MAX_PID
      requires Unmapped(pt.Keys, pid, RoundUp(startva), endva)
      modifies this
      ensures endva >= KERNBASE ==> !panicked && r == 0 && Valid() && Flat() == old(Flat())
      ensures endva < KERNBASE && endva < startva ==> !panicked && r == startva && Valid() && Flat() == old(Flat())
      ensures endva < KERNBASE && startva <= endva && !panicked ==>
        Valid() && r == endva && Grown(old(Flat()), Flat(), pid, RoundUp(startva), endva, ZeroPage())
      ensures !panicked ==> OthersKept(old(Flat()), Flat(), pid)
      ensures endva < KERNBASE && startva <= endva ==>
        (panicked <==> GrowAll(old(Counters()), RoundUp(startva), RoundUp(startva), endva, newTable).None?)
    {
      panicked, r := false, 0;
      if endva >= KERNBASE {
        return;
      }
      if endva < startva {
        r := startva;
        return;
      }
      panicked := GrowRange(pid, RoundUp(startva), endva, newTable, ZeroPage());
      if !panicked {
        GrownSparesOthers(old(Flat()), Flat(), pid, RoundUp(startva), endva, ZeroPage());
      }
      r := endva;
    }
  }
}
