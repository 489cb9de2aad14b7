/**
  Two places where the paging code leaves the flat memory it otherwise implements: `copyuvm` can
  evict the page it is copying (src/vm.c:396-407) and `deallocuvm` skips pages that are swapped out
  (src/vm.c:313).  Both are kept as written; the lemmas say exactly when they are right.
 */
module SwapLimits {
  import opened Common
  import opened SwapState

  // ----- copyuvm -----

  /** The state after the `kalloc` in `copyuvm`, where v and slot are used only if it must evict. */
  ghost function AfterKalloc(s: Vm, v: nat, slot: nat): Vm
    requires s.free == [] ==> Enabled(s, Evict(v, slot))
  {
    if s.free == [] then Step(Step(s, Evict(v, slot)), Take) else Step(s, Take)
  }

  /** What `copyuvm` puts into the child's page: it read the frame number before the `kalloc`. */
  ghost function Copied(s: Vm, key: nat, v: nat, slot: nat): Page
    requires Inv(s) && key in s.pt && s.pt[key].present
    requires s.free == [] ==> Enabled(s, Evict(v, slot))
  {
    AfterKalloc(s, v, slot).frames[s.pt[key].frame]
  }

  /** The copy is exact unless the source is itself the victim; then `kfree` has overwritten the
      first two words, which matters unless they already had those values. */
  lemma CopyIsExactWhen(s: Vm, key: nat, v: nat, slot: nat)
    requires Inv(s) && key in s.pt && s.pt[key].present
    requires s.free == [] ==> Enabled(s, Evict(v, slot))
    ensures Copied(s, key, v, slot) == s.flat[key] <==>
      s.free != [] || s.queue[v].key != key || (s.flat[key][0] == PGSIZE && s.flat[key][1] == 0)
  {
    if s.free == [] && s.queue[v].key == key {
      var page := s.flat[key];
      assert Copied(s, key, v, slot) == Clobber(page, 0);
      if page[0] == PGSIZE && page[1] == 0 {
        assert Clobber(page, 0) == page;
      } else {
        assert Clobber(page, 0)[0] == PGSIZE && Clobber(page, 0)[1] == 0;
      }
    }
  }

  /** The copy that the paging methods make is this one, for the page that second chance picks. */
  lemma CopyOfIsCopied(s: Vm, key: nat, v: nat, slot: nat)
    requires Inv(s) && key in s.pt && s.pt[key].present
    requires s.free == [] ==> Enabled(s, Evict(v, slot)) && v == Picked(s.queue)
    ensures CopyOf(s, key) == Copied(s, key, v, slot)
  {
  }

  lemma Extended(r: Run, e: Event) returns (r': Run)
    requires IsRun(r) && Enabled(r.s, e)
    ensures r' == Then(r, e, Step(r.s, e)) && IsRun(r')
  {
    r' := Then(r, e, Step(r.s, e));
  }

  /** One frame, one process, memory exhausted: a run to a state in which the copy differs from the
      page copied. */
  lemma CopyCanFail(page: Page) returns (r: Run, key: nat)
    requires page[0] == 0
    ensures IsRun(r) && Inv(r.s) && key in r.s.pt && r.s.pt[key].present && r.s.free == []
    ensures Enabled(r.s, Evict(0, 0)) && Copied(r.s, key, 0, 0) != r.s.flat[key]
  {
    key := Key(PGSIZE, 1);
    r := Start(Vm(map[7 := page], [7], {}, map[], [], [0], [page], map[]));
    r := Extended(r, Take);
    r := Extended(r, Map(key, 7));
    r := Extended(r, Enqueue(key, false));
    RunKeepsInv(r);
    CopyIsExactWhen(r.s, key, 0, 0);
  }

  // ----- deallocuvm -----

  /** One round of `deallocuvm` for a page that leaves the address space: a present page loses its
      frame, its queue entry and, if it has both an entry and a slot, that slot; a page that is
      swapped out is skipped. */
  ghost function Dealloc(s: Vm, key: nat): Vm
    requires key in s.pt && (s.pt[key].present ==> s.pt[key].frame in s.frames)
  {
    var f, v := s.pt[key].frame, FirstEntry(s.queue, key);
    if s.pt[key].present then
      s.(pt := s.pt - {key}, flat := s.flat - {key},
         frames := s.frames[f := Clobber(s.frames[f], NextFree(s))], free := [f] + s.free,
         queue := Without(s.queue, v),
         swapMap := if v < |s.queue| then Released(s.swapMap, key) else s.swapMap)
    else
      s.(pt := s.pt - {key}, flat := s.flat - {key})
  }

  lemma DeallocKeepsTables(s: Vm, key: nat)
    requires FreeListOk(s) && TablesOk(s) && QueueOk(s) && key in s.pt && s.pt[key].present
    ensures var s' := Dealloc(s, key); FreeListOk(s') && TablesOk(s')
  {
  }

  lemma DeallocKeepsQueue(s: Vm, key: nat)
    requires QueueOk(s) && key in s.pt && (s.pt[key].present ==> s.pt[key].frame in s.frames)
    ensures QueueOk(Dealloc(s, key))
  {
  }

  lemma PresentDeallocKeepsInv(s: Vm, key: nat)
    requires Inv(s) && key in s.pt && s.pt[key].present
    ensures Inv(Dealloc(s, key))
  {
    DeallocKeepsTables(s, key);
    DeallocKeepsQueue(s, key);
    assert key !in s.swapMap;
    assert SwapOk(Dealloc(s, key));
  }

  /** Shrinking keeps the invariant if and only if the page is present: a swapped-out page leaves
      its key behind in the swap map. */
  lemma ShrinkKeepsInvWhen(s: Vm, key: nat)
    requires Inv(s) && key in s.pt
    ensures Inv(Dealloc(s, key)) <==> s.pt[key].present
  {
    if s.pt[key].present {
      PresentDeallocKeepsInv(s, key);
    } else {
      var i :| 0 <= i < |s.swapMap| && s.swapMap[i] == key;
      assert !SwapOk(Dealloc(s, key));
    }
  }
}
