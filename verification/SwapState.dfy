/**
  Demand paging (src/vm.c, src/kalloc.c): physical frames, the kernel's free list, the page queue,
  the swap map and the swap slots, with the flat memory they are meant to implement.

  A page of process pid at page-aligned virtual address va is known by the key `va | pid`, which
  needs pid in 1..0xfff.  The page tables are a flat map here; `PageTable` shows that the two-level
  tables implement one.
 */
module SwapState {
  import opened Common

  const PGWORDS: nat := 1024

  type Page = p: seq<nat> | |p| == PGWORDS witness seq(PGWORDS, _ => 0)

  /** Where a mapped page is: in `frame` if present, else in the swap slot that carries its key. */
  datatype Pte = Pte(frame: nat, present: bool)
  datatype Entry = Entry(key: nat, accessed: bool)

  /** `kernel` holds the frames that belong to the kernel: page tables, slabs, and frames taken
      from the free list but not yet mapped.  `flat` is the memory the processes believe in. */
  datatype Vm = Vm(
    frames: map<nat, Page>,
    free: seq<nat>,
    kernel: set<nat>,
    pt: map<nat, Pte>,
    queue: seq<Entry>,
    swapMap: seq<nat>,
    slots: seq<Page>,
    flat: map<nat, Page>)

  /** The key of a page, as the bits of its address and pid are disjoint. */
  function Key(va: nat, pid: nat): (k: nat) { va + pid }

  lemma KeyIsOr(va: bv32, pid: bv32)
    requires va & 0xfff == 0 && pid & 0xfffff000 == 0
    ensures va | pid == va + pid
  {
  }

  /** Its low twelve bits are the pid and the others the address, as `page_out` takes them apart. */
  lemma KeyParts(va: nat, pid: nat)
    requires va % 4096 == 0 && pid < 4096
    ensures Key(va, pid) % 4096 == pid && Key(va, pid) - Key(va, pid) % 4096 == va
  {
  }

  lemma KeyInjective(va: nat, pid: nat, va': nat, pid': nat)
    requires va % PGSIZE == 0 && va' % PGSIZE == 0 && pid < PGSIZE && pid' < PGSIZE
    ensures Key(va, pid) == Key(va', pid') <==> va == va' && pid == pid'
  {
  }

  // ----- the invariant -----

  ghost predicate FreeListOk(s: Vm)
  {
    && (forall i :: 0 <= i < |s.free| ==> s.free[i] in s.frames && s.free[i] !in s.kernel)
    && (forall i, j :: 0 <= i < j < |s.free| ==> s.free[i] != s.free[j])
  }

  ghost predicate TablesOk(s: Vm)
  {
    && (forall k :: k in s.pt && s.pt[k].present ==>
          s.pt[k].frame in s.frames && s.pt[k].frame !in s.kernel && s.pt[k].frame !in s.free)
    && (forall k, l :: k in s.pt && l in s.pt && s.pt[k].present && s.pt[l].present && k != l ==>
          s.pt[k].frame != s.pt[l].frame)
  }

  /** The queue holds present pages, each once. */
  ghost predicate QueueOk(s: Vm)
  {
    && (forall i :: 0 <= i < |s.queue| ==> s.queue[i].key in s.pt && s.pt[s.queue[i].key].present)
    && (forall i, j :: 0 <= i < j < |s.queue| ==> s.queue[i].key != s.queue[j].key)
  }

  /** The swap map holds exactly the pages that are not present, each once. */
  ghost predicate SwapOk(s: Vm)
  {
    && |s.slots| == |s.swapMap|
    && (forall i :: 0 <= i < |s.swapMap| && s.swapMap[i] != 0 ==>
          s.swapMap[i] in s.pt && !s.pt[s.swapMap[i]].present)
    && (forall i, j :: 0 <= i < j < |s.swapMap| && s.swapMap[i] != 0 ==> s.swapMap[i] != s.swapMap[j])
    && (forall k :: k in s.pt ==> k != 0 && (s.pt[k].present || k in s.swapMap))
  }

  /** Frames and slots agree with the flat memory. */
  ghost predicate ContentOk(s: Vm)
    requires TablesOk(s) && SwapOk(s)
  {
    && s.flat.Keys == s.pt.Keys
    && (forall k :: k in s.pt && s.pt[k].present ==> s.frames[s.pt[k].frame] == s.flat[k])
    && (forall i :: 0 <= i < |s.swapMap| && s.swapMap[i] != 0 ==> s.slots[i] == s.flat[s.swapMap[i]])
  }

  ghost predicate Inv(s: Vm)
  {
    FreeListOk(s) && TablesOk(s) && QueueOk(s) && SwapOk(s) && ContentOk(s)
  }

  // ----- steps -----

  /** `kfree` threads the page into the free list through its first two words. */
  function Clobber(p: Page, next: nat): (r: Page)
  {
    p[0 := PGSIZE][1 := next]
  }

  function NextFree(s: Vm): (a: nat)
  {
    if s.free == [] then 0 else s.free[0]
  }

  /** The first slot with this entry, or |m|. */
  function FirstSlot(m: seq<nat>, x: nat): (i: nat)
    ensures i <= |m| && (forall j :: 0 <= j < i ==> m[j] != x) && (i < |m| ==> m[i] == x)
    ensures i < |m| <==> x in m
  {
    if m == [] || m[0] == x then 0 else 1 + FirstSlot(m[1..], x)
  }

  /** The swap map with the first slot of this entry freed, if there is one. */
  function Released(m: seq<nat>, x: nat): (m': seq<nat>)
    ensures |m'| == |m| && forall j :: 0 <= j < |m| ==> m'[j] == if m[j] == x && x !in m[..j] then 0 else m[j]
  {
    if x in m then m[FirstSlot(m, x) := 0] else m
  }

  /** The first queue entry with this key, or |q|. */
  function FirstEntry(q: seq<Entry>, key: nat): (i: nat)
    ensures i <= |q| && (i < |q| ==> q[i].key == key)
    ensures forall j :: 0 <= j < i ==> q[j].key != key
  {
    if q == [] || q[0].key == key then 0 else 1 + FirstEntry(q[1..], key)
  }

  /** The queue without that entry. */
  function Without(q: seq<Entry>, i: nat): (q': seq<Entry>)
  {
    if i < |q| then q[..i] + q[i + 1..] else q
  }

  /** The first entry from i on without its bit, or |q|. */
  function FirstClear(q: seq<Entry>, i: nat): (j: nat)
    requires i <= |q|
    ensures i <= j <= |q| && (j < |q| ==> !q[j].accessed)
    ensures forall k :: i <= k < j ==> q[k].accessed
    decreases |q| - i
  {
    if i == |q| || !q[i].accessed then i else FirstClear(q, i + 1)
  }

  /** The entry that second chance picks: the first without its bit, or the first of all. */
  function Picked(q: seq<Entry>): (v: nat)
    requires q != []
    ensures v < |q|
  {
    if FirstClear(q, 0) < |q| then FirstClear(q, 0) else 0
  }

  /** What a copy of page `key` becomes when its frame is taken in state s: the page itself, unless no
      frame is free and the page is the one that has to go; then `kfree` has written into it. */
  ghost function CopyOf(s: Vm, key: nat): Page
    requires key in s.flat
  {
    if s.free == [] && s.queue != [] && s.queue[Picked(s.queue)].key == key then Clobber(s.flat[key], 0)
    else s.flat[key]
  }

  datatype Event =
    | Evict(victim: nat, slot: nat)
    | Take
    | Fill(f: nat, page: Page)
    | Map(key: nat, f: nat)
    | Enqueue(key: nat, accessed: bool)
    | Load(key: nat, slot: nat, f: nat)
    | Write(key: nat, page: Page)
    | Reference(queue: seq<Entry>)

  predicate SameKeys(q: seq<Entry>, q': seq<Entry>)
  {
    |q| == |q'| && forall i :: 0 <= i < |q| ==> q[i].key == q'[i].key
  }

  ghost predicate Enabled(s: Vm, e: Event)
  {
    match e
    case Evict(v, slot) =>
      && v < |s.queue| && s.queue[v].key in s.pt && s.pt[s.queue[v].key].frame in s.frames
      && slot < |s.swapMap| == |s.slots| && s.swapMap[slot] == 0
    case Take => s.free != []
    case Fill(f, _) => f in s.kernel
    case Map(key, f) => f in s.kernel && f in s.frames && key !in s.pt && key != 0
    case Enqueue(key, _) => key in s.pt && s.pt[key].present && forall i :: 0 <= i < |s.queue| ==> s.queue[i].key != key
    case Load(key, slot, f) =>
      && slot < |s.swapMap| == |s.slots| && s.swapMap[slot] == key && key != 0 && key in s.pt
      && f in s.kernel && f in s.frames
    case Write(key, _) => key in s.pt && s.pt[key].present
    case Reference(q) => SameKeys(s.queue, q)
  }

  ghost function Step(s: Vm, e: Event): Vm
    requires Enabled(s, e)
  {
    match e
    case Evict(v, slot) =>
      var key := s.queue[v].key;
      var f := s.pt[key].frame;
      s.(pt := s.pt[key := Pte(f, false)],
         swapMap := s.swapMap[slot := key],
         slots := s.slots[slot := s.frames[f]],
         frames := s.frames[f := Clobber(s.frames[f], NextFree(s))],
         free := [f] + s.free,
         queue := Without(s.queue, v))
    case Take => s.(free := s.free[1..], kernel := s.kernel + {s.free[0]})
    case Fill(f, page) => s.(frames := s.frames[f := page])
    case Map(key, f) =>
      s.(kernel := s.kernel - {f}, pt := s.pt[key := Pte(f, true)], flat := s.flat[key := s.frames[f]])
    case Enqueue(key, accessed) => s.(queue := s.queue + [Entry(key, accessed)])
    case Load(key, slot, f) =>
      s.(kernel := s.kernel - {f}, frames := s.frames[f := s.slots[slot]],
         swapMap := s.swapMap[slot := 0], pt := s.pt[key := Pte(f, true)])
    case Write(key, page) =>
      s.(frames := s.frames[s.pt[key].frame := page], flat := s.flat[key := page])
    case Reference(q) => s.(queue := q)
  }

  lemma StillThere(m: seq<nat>, slot: nat, x: nat, k: nat)
    requires slot < |m| && k in m && m[slot] != k
    ensures k in m[slot := x]
  {
    var i :| 0 <= i < |m| && m[i] == k;
    assert m[slot := x][i] == k;
  }

  lemma EvictKeepsTables(s: Vm, v: nat, slot: nat)
    requires Inv(s) && Enabled(s, Evict(v, slot))
    ensures var s' := Step(s, Evict(v, slot)); FreeListOk(s') && TablesOk(s') && QueueOk(s')
  {
  }

  /** The page goes to a slot with its contents before `kfree` scribbles over the frame. */
  lemma EvictKeepsContent(s: Vm, v: nat, slot: nat)
    requires Inv(s) && Enabled(s, Evict(v, slot)) && TablesOk(Step(s, Evict(v, slot)))
    ensures var s' := Step(s, Evict(v, slot)); SwapOk(s') && ContentOk(s')
  {
    var key := s.queue[v].key;
    forall k | k in s.pt && k != key && !s.pt[k].present
      ensures k in s.swapMap[slot := key]
    {
      StillThere(s.swapMap, slot, key, k);
    }
    assert s.swapMap[slot := key][slot] == key;
  }

  lemma LoadKeepsSwap(s: Vm, key: nat, slot: nat, f: nat)
    requires SwapOk(s) && Enabled(s, Load(key, slot, f))
    ensures SwapOk(Step(s, Load(key, slot, f)))
  {
    forall k | k in s.pt && k != key && !s.pt[k].present
      ensures k in s.swapMap[slot := 0]
    {
      StillThere(s.swapMap, slot, 0, k);
    }
  }

  lemma LoadKeepsInv(s: Vm, key: nat, slot: nat, f: nat)
    requires Inv(s) && Enabled(s, Load(key, slot, f))
    ensures Inv(Step(s, Load(key, slot, f)))
  {
    LoadKeepsSwap(s, key, slot, f);
  }

  lemma MapKeepsInv(s: Vm, key: nat, f: nat)
    requires Inv(s) && Enabled(s, Map(key, f))
    ensures Inv(Step(s, Map(key, f)))
  {
  }

  lemma WriteKeepsInv(s: Vm, key: nat, page: Page)
    requires Inv(s) && Enabled(s, Write(key, page))
    ensures Inv(Step(s, Write(key, page)))
  {
  }

  /** Every step keeps the invariant, in particular the agreement with the flat memory. */
  lemma StepKeepsInv(s: Vm, e: Event)
    requires Inv(s) && Enabled(s, e)
    ensures Inv(Step(s, e))
  {
    match e
    case Evict(v, slot) =>
      EvictKeepsTables(s, v, slot);
      EvictKeepsContent(s, v, slot);
    case Map(key, f) => MapKeepsInv(s, key, f);
    case Load(key, slot, f) => LoadKeepsInv(s, key, slot, f);
    case Write(key, page) => WriteKeepsInv(s, key, page);
    case _ => SmallStepKeepsInv(s, e);
  }

  lemma SmallStepKeepsInv(s: Vm, e: Event)
    requires Inv(s) && Enabled(s, e) && (e.Take? || e.Fill? || e.Enqueue? || e.Reference?)
    ensures Inv(Step(s, e))
  {
  }

  // ----- runs -----

  /** No process yet: the frames are free or belong to the kernel, and swap is empty. */
  ghost predicate Booted(s: Vm)
  {
    && FreeListOk(s) && s.pt == map[] && s.flat == map[] && s.queue == []
    && |s.slots| == |s.swapMap| && forall i :: 0 <= i < |s.swapMap| ==> s.swapMap[i] == 0
  }

  /** A run, latest event outermost. */
  datatype Run = Start(s: Vm) | Then(prev: Run, e: Event, s: Vm)

  ghost predicate IsRun(r: Run)
  {
    match r
    case Start(s) => Booted(s)
    case Then(prev, e, s) => IsRun(prev) && Enabled(prev.s, e) && s == Step(prev.s, e)
  }

  /** Run r goes on from r0. */
  ghost predicate Since(r0: Run, r: Run)
  {
    r == r0 || (r.Then? && Since(r0, r.prev))
  }

  lemma {:induction false} SinceSince(r0: Run, r1: Run, r2: Run)
    requires Since(r0, r1) && Since(r1, r2)
    ensures Since(r0, r2)
  {
    if r2 != r1 {
      SinceSince(r0, r1, r2.prev);
    }
  }

  ghost predicate Unfold(r: Run) { true }

  /** `IsRun`, kept folded except where `Unfold` is mentioned. */
  ghost predicate Reached(r: Run)
  {
    forall q {:trigger Unfold(q)} :: q == r ==> IsRun(q)
  }

  lemma ReachedIsRun(r: Run)
    ensures Reached(r) <==> IsRun(r)
  {
    assert Unfold(r);
  }

  lemma {:induction false} RunKeepsInv(r: Run)
    requires IsRun(r)
    ensures Inv(r.s)
  {
    if r.Then? {
      RunKeepsInv(r.prev);
      StepKeepsInv(r.prev.s, r.e);
    }
  }

  /** The value last written to a page in the course of a run (None: not written since the start). */
  ghost function LastWritten(r: Run, key: nat): Option<Page>
  {
    match r
    case Start(_) => None
    case Then(prev, Write(k, page), _) => if k == key then Some(page) else LastWritten(prev, key)
    case Then(prev, Map(k, f), _) =>
      if k == key && f in prev.s.frames then Some(prev.s.frames[f]) else LastWritten(prev, key)
    case Then(prev, _, _) => LastWritten(prev, key)
  }

  /** The contents of a page, wherever it is. */
  ghost predicate Holds(s: Vm, key: nat, page: Page)
  {
    && key in s.pt
    && (s.pt[key].present ==> s.pt[key].frame in s.frames && s.frames[s.pt[key].frame] == page)
    && (!s.pt[key].present ==>
          exists i :: 0 <= i < |s.swapMap| == |s.slots| && s.swapMap[i] == key && s.slots[i] == page)
  }

  lemma FlatStep(s: Vm, e: Event, key: nat)
    requires Enabled(s, e)
    ensures e.Write? && e.key == key ==> key in Step(s, e).flat && Step(s, e).flat[key] == e.page
    ensures e.Map? && e.key == key ==> key in Step(s, e).flat && Step(s, e).flat[key] == s.frames[e.f]
    ensures key in s.flat && !((e.Write? || e.Map?) && e.key == key) ==>
      key in Step(s, e).flat && Step(s, e).flat[key] == s.flat[key]
  {
  }

  lemma {:induction false} FlatIsLastWritten(r: Run, key: nat)
    requires IsRun(r) && LastWritten(r, key).Some?
    ensures key in r.s.flat && r.s.flat[key] == LastWritten(r, key).value
  {
    FlatStep(r.prev.s, r.e, key);
    if LastWritten(r.prev, key).Some? {
      FlatIsLastWritten(r.prev, key);
    }
  }

  /** Swap refines flat memory: whatever was evicted and faulted in between, a page holds the value
      last written to it. */
  lemma SwapRefinesFlatMemory(r: Run, key: nat)
    requires IsRun(r) && LastWritten(r, key).Some?
    ensures Holds(r.s, key, LastWritten(r, key).value)
  {
    RunKeepsInv(r);
    FlatIsLastWritten(r, key);
    if !r.s.pt[key].present {
      assert key in r.s.swapMap;
    }
  }

  /** No key occurs twice across the page queue and the swap map together. */
  lemma KeysOccurOnce(r: Run, i: nat, j: nat)
    requires IsRun(r)
    ensures i < j < |r.s.queue| ==> r.s.queue[i].key != r.s.queue[j].key
    ensures i < j < |r.s.swapMap| && r.s.swapMap[i] != 0 ==> r.s.swapMap[i] != r.s.swapMap[j]
    ensures i < |r.s.queue| && j < |r.s.swapMap| ==> r.s.queue[i].key != r.s.swapMap[j]
  {
    RunKeepsInv(r);
  }
}
