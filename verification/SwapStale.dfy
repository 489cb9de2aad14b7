/**
  What becomes of the key that `deallocuvm` leaves in the swap map when it skips a swapped-out page
  (src/vm.c:313): paging runs that also shrink address spaces, with slots chosen as `alloc_slot` and
  `find_slot` choose them, the first free one and the first with the key.

  `own` records the slot that each swapped-out page was last evicted to.
 */
module SwapStale {
  import opened SwapState
  import opened SwapLimits

  datatype State = State(vm: Vm, own: map<nat, nat>)

  datatype Action = Paging(e: Event) | Shrink(key: nat)

  ghost predicate Allowed(x: State, a: Action)
  {
    match a
    case Paging(e) =>
      && Enabled(x.vm, e)
      && (e.Evict? ==> e.slot == FirstSlot(x.vm.swapMap, 0))
      && (e.Load? ==> e.slot == FirstSlot(x.vm.swapMap, e.key) && !x.vm.pt[e.key].present)
    case Shrink(key) => key in x.vm.pt && (x.vm.pt[key].present ==> x.vm.pt[key].frame in x.vm.frames)
  }

  ghost function Next(x: State, a: Action): State
    requires Allowed(x, a)
  {
    match a
    case Paging(e) =>
      State(Step(x.vm, e),
            if e.Evict? then x.own[x.vm.queue[e.victim].key := e.slot]
            else if e.Load? then x.own - {e.key}
            else x.own)
    case Shrink(key) => State(Dealloc(x.vm, key), x.own - {key})
  }

  ghost predicate OwnOk(x: State, k: nat)
  {
    && k in x.own && k in x.vm.flat && x.own[k] < |x.vm.swapMap| == |x.vm.slots|
    && x.vm.swapMap[x.own[k]] == k && x.vm.slots[x.own[k]] == x.vm.flat[k]
  }

  /** Present pages hold what was written to them, and so does the slot that each swapped-out page
      was evicted to; other slots may carry anything. */
  ghost predicate Good(x: State)
  {
    && FreeListOk(x.vm) && TablesOk(x.vm) && QueueOk(x.vm)
    && |x.vm.slots| == |x.vm.swapMap| && x.vm.flat.Keys == x.vm.pt.Keys && 0 !in x.vm.pt
    && (forall k :: k in x.vm.pt && x.vm.pt[k].present ==> x.vm.frames[x.vm.pt[k].frame] == x.vm.flat[k])
    && (forall k :: k in x.own ==> k in x.vm.pt && !x.vm.pt[k].present)
    && (forall k: nat {:trigger OwnOk(x, k)} :: k in x.vm.pt && !x.vm.pt[k].present ==> OwnOk(x, k))
  }

  /** The slot that a fault on this page reads. */
  ghost function Found(x: State, key: nat): nat { FirstSlot(x.vm.swapMap, key) }

  // ----- steps -----

  lemma EvictKeepsGood(x: State, v: nat, slot: nat)
    requires Good(x) && Allowed(x, Paging(Evict(v, slot)))
    ensures Good(Next(x, Paging(Evict(v, slot))))
  {
    var x' := Next(x, Paging(Evict(v, slot)));
    EvictTables(x.vm, v, slot);
    forall k: nat | k in x'.vm.pt && !x'.vm.pt[k].present
      ensures OwnOk(x', k)
    {
      assert k != x.vm.queue[v].key ==> OwnOk(x, k);
    }
  }

  lemma EvictTables(s: Vm, v: nat, slot: nat)
    requires FreeListOk(s) && TablesOk(s) && QueueOk(s) && Enabled(s, Evict(v, slot))
    ensures var s' := Step(s, Evict(v, slot)); FreeListOk(s') && TablesOk(s') && QueueOk(s')
  {
  }

  lemma LoadKeepsGood(x: State, key: nat, slot: nat, f: nat)
    requires Good(x) && Allowed(x, Paging(Load(key, slot, f))) && x.vm.slots[slot] == x.vm.flat[key]
    ensures Good(Next(x, Paging(Load(key, slot, f))))
  {
    var x' := Next(x, Paging(Load(key, slot, f)));
    forall k: nat | k in x'.vm.pt && !x'.vm.pt[k].present
      ensures OwnOk(x', k)
    {
      assert OwnOk(x, k);
    }
  }

  lemma MapKeepsGood(x: State, key: nat, f: nat)
    requires Good(x) && Allowed(x, Paging(Map(key, f)))
    ensures Good(Next(x, Paging(Map(key, f))))
  {
    var x' := Next(x, Paging(Map(key, f)));
    forall k: nat | k in x'.vm.pt && !x'.vm.pt[k].present
      ensures OwnOk(x', k)
    {
      assert OwnOk(x, k);
    }
  }

  lemma WriteKeepsGood(x: State, key: nat, page: Page)
    requires Good(x) && Allowed(x, Paging(Write(key, page)))
    ensures Good(Next(x, Paging(Write(key, page))))
  {
    var x' := Next(x, Paging(Write(key, page)));
    forall k: nat | k in x'.vm.pt && !x'.vm.pt[k].present
      ensures OwnOk(x', k)
    {
      assert OwnOk(x, k);
    }
  }

  lemma FillKeepsGood(x: State, f: nat, page: Page)
    requires Good(x) && Allowed(x, Paging(Fill(f, page)))
    ensures Good(Next(x, Paging(Fill(f, page))))
  {
    var x' := Next(x, Paging(Fill(f, page)));
    forall k: nat | k in x'.vm.pt && !x'.vm.pt[k].present
      ensures OwnOk(x', k)
    {
      assert OwnOk(x, k);
    }
  }

  lemma QueueKeepsGood(x: State, e: Event)
    requires Good(x) && Allowed(x, Paging(e)) && (e.Take? || e.Enqueue? || e.Reference?)
    ensures Good(Next(x, Paging(e)))
  {
    var x' := Next(x, Paging(e));
    forall k: nat | k in x'.vm.pt && !x'.vm.pt[k].present
      ensures OwnOk(x', k)
    {
      assert OwnOk(x, k);
    }
  }

  lemma ShrinkKeepsGood(x: State, key: nat)
    requires Good(x) && Allowed(x, Shrink(key))
    ensures Good(Next(x, Shrink(key)))
  {
    var x' := Next(x, Shrink(key));
    if x.vm.pt[key].present {
      DeallocKeepsTables(x.vm, key);
    }
    DeallocKeepsQueue(x.vm, key);
    forall k: nat | k in x'.vm.pt && !x'.vm.pt[k].present
      ensures OwnOk(x', k)
    {
      assert OwnOk(x, k);
    }
  }

  /** Every step keeps the agreement, a fault if the slot it finds holds what was written last. */
  lemma StepKeepsGood(x: State, a: Action)
    requires Good(x) && Allowed(x, a)
    requires a.Paging? && a.e.Load? ==> OwnOk(x, a.e.key) && x.vm.slots[a.e.slot] == x.vm.flat[a.e.key]
    ensures Good(Next(x, a))
  {
    match a
    case Shrink(key) => ShrinkKeepsGood(x, key);
    case Paging(e) =>
      match e
      case Evict(v, slot) => EvictKeepsGood(x, v, slot);
      case Load(key, slot, f) => LoadKeepsGood(x, key, slot, f);
      case Map(key, f) => MapKeepsGood(x, key, f);
      case Write(key, page) => WriteKeepsGood(x, key, page);
      case Fill(f, page) => FillKeepsGood(x, f, page);
      case _ => QueueKeepsGood(x, e);
  }

  // ----- runs -----

  datatype History = Start(x: State) | Then(prev: History, a: Action, x: State)

  ghost predicate IsHistory(h: History)
  {
    match h
    case Start(x) => Booted(x.vm) && x.own == map[]
    case Then(prev, a, x) => IsHistory(prev) && Allowed(prev.x, a) && x == Next(prev.x, a)
  }

  /** Every slot in use belongs to the page whose key it carries. */
  ghost predicate NoStale(x: State)
  {
    forall i: nat :: i < |x.vm.swapMap| && x.vm.swapMap[i] != 0 ==>
      x.vm.swapMap[i] in x.own && x.own[x.vm.swapMap[i]] == i
  }

  /** Only present pages were shrunk away. */
  ghost predicate Careful(h: History)
  {
    h.Then? ==> Careful(h.prev) && (h.a.Shrink? && h.a.key in h.prev.x.vm.pt ==> h.prev.x.vm.pt[h.a.key].present)
  }

  lemma CarefulStep(x: State, a: Action)
    requires Good(x) && NoStale(x) && Allowed(x, a) && (a.Shrink? ==> x.vm.pt[a.key].present)
    ensures Good(Next(x, a)) && NoStale(Next(x, a))
  {
    StaysFresh(x, a);
    if a.Paging? && a.e.Load? {
      FindsOwn(x, a.e.key);
    }
    StepKeepsGood(x, a);
  }

  /** Without stale slots a fault finds the page's own. */
  lemma FindsOwn(x: State, key: nat)
    requires Good(x) && NoStale(x) && key in x.vm.pt && !x.vm.pt[key].present
    ensures OwnOk(x, key) && Found(x, key) == x.own[key]
  {
    assert OwnOk(x, key);
  }

  lemma StaysFresh(x: State, a: Action)
    requires Good(x) && NoStale(x) && Allowed(x, a) && (a.Shrink? ==> x.vm.pt[a.key].present)
    ensures NoStale(Next(x, a))
  {
  }

  /** As long as only present pages are shrunk away, every page holds what was last written to it and
      every fault finds its own slot. */
  lemma {:induction false} CarefulShrinking(h: History)
    requires IsHistory(h) && Careful(h)
    ensures Good(h.x) && NoStale(h.x)
    ensures forall k :: k in h.x.vm.pt && !h.x.vm.pt[k].present ==> k in h.x.own && Found(h.x, k) == h.x.own[k]
  {
    if h.Then? {
      CarefulShrinking(h.prev);
      CarefulStep(h.prev.x, h.a);
    }
    forall k | k in h.x.vm.pt && !h.x.vm.pt[k].present
      ensures k in h.x.own && Found(h.x, k) == h.x.own[k]
    {
      FindsOwn(h.x, k);
    }
  }

  // ----- a page shrunk away while it is out -----

  /** Slot o was left behind with the key and contents c; every other slot belongs to its page. */
  ghost predicate OneStale(x: State, key: nat, o: nat, c: Page)
  {
    && Good(x) && key != 0 && o < |x.vm.swapMap| && x.vm.swapMap[o] == key && x.vm.slots[o] == c
    && (key in x.own ==> x.own[key] != o) && OthersOwn(x.vm.swapMap, x.own, o)
  }

  ghost predicate OthersOwn(m: seq<nat>, own: map<nat, nat>, o: nat)
  {
    forall i: nat :: i < |m| && i != o && m[i] != 0 ==> m[i] in own && own[m[i]] == i
  }

  lemma ShrinkLeavesOne(x: State, key: nat)
    requires Good(x) && NoStale(x) && key in x.vm.pt && !x.vm.pt[key].present
    ensures OwnOk(x, key) && OneStale(Next(x, Shrink(key)), key, x.own[key], x.vm.flat[key])
  {
    assert OwnOk(x, key);
    ShrinkKeepsGood(x, key);
  }

  /** An action that shrinks no page that is out, and neither faults on `key` nor shrinks it. */
  ghost predicate LeavesAlone(x: State, a: Action, key: nat)
  {
    match a
    case Shrink(k) => k != key && k in x.vm.pt && x.vm.pt[k].present
    case Paging(e) => e.Load? ==> e.key != key
  }

  lemma OtherFindsOwn(x: State, key: nat, o: nat, c: Page, k: nat)
    requires OneStale(x, key, o, c) && k in x.vm.pt && !x.vm.pt[k].present && k != key
    ensures OwnOk(x, k) && Found(x, k) == x.own[k]
  {
    assert OwnOk(x, k);
  }

  lemma EvictOwn(m: seq<nat>, own: map<nat, nat>, o: nat, k: nat, slot: nat)
    requires OthersOwn(m, own, o) && slot < |m| && m[slot] == 0 && (forall i :: 0 <= i < |m| && i != o ==> m[i] != k)
    ensures OthersOwn(m[slot := k], own[k := slot], o)
  {
  }

  lemma LoadOwn(m: seq<nat>, own: map<nat, nat>, o: nat, k: nat)
    requires OthersOwn(m, own, o) && k in own && own[k] < |m|
    ensures OthersOwn(m[own[k] := 0], own - {k}, o)
  {
  }

  lemma SlotsStep(x: State, a: Action, key: nat, o: nat, c: Page)
    requires OneStale(x, key, o, c) && Allowed(x, a) && LeavesAlone(x, a, key) && Good(Next(x, a))
    requires a.Paging? && a.e.Load? ==> a.e.key in x.own && x.own[a.e.key] == a.e.slot
    ensures OneStale(Next(x, a), key, o, c)
  {
    if a.Paging? && a.e.Evict? {
      EvictSlots(x, a.e.victim, a.e.slot, key, o, c);
    } else if a.Paging? && a.e.Load? {
      LoadSlots(x, a, key, o, c);
    } else if a.Shrink? {
      ShrinkSlots(x, a.key, key, o, c);
    }
  }

  lemma LoadSlots(x: State, a: Action, key: nat, o: nat, c: Page)
    requires OneStale(x, key, o, c) && Allowed(x, a) && LeavesAlone(x, a, key) && Good(Next(x, a))
    requires a.Paging? && a.e.Load? && a.e.key in x.own && x.own[a.e.key] == a.e.slot
    ensures OneStale(Next(x, a), key, o, c)
  {
    LoadOwn(x.vm.swapMap, x.own, o, a.e.key);
  }

  lemma EvictSlots(x: State, v: nat, slot: nat, key: nat, o: nat, c: Page)
    requires OneStale(x, key, o, c) && Allowed(x, Paging(Evict(v, slot))) && Good(Next(x, Paging(Evict(v, slot))))
    ensures OneStale(Next(x, Paging(Evict(v, slot))), key, o, c)
  {
    EvictOwn(x.vm.swapMap, x.own, o, x.vm.queue[v].key, slot);
  }

  lemma ShrinkSlots(x: State, k: nat, key: nat, o: nat, c: Page)
    requires OneStale(x, key, o, c) && k != key && k in x.vm.pt && x.vm.pt[k].present
    ensures k !in x.vm.swapMap && k !in x.own
  {
    assert k != 0;
  }

  lemma OneStaleStep(x: State, a: Action, key: nat, o: nat, c: Page)
    requires OneStale(x, key, o, c) && Allowed(x, a) && LeavesAlone(x, a, key)
    ensures OneStale(Next(x, a), key, o, c)
  {
    if a.Paging? && a.e.Load? {
      OtherFindsOwn(x, key, o, c, a.e.key);
    }
    StepKeepsGood(x, a);
    SlotsStep(x, a, key, o, c);
  }

  /** h goes on from h0 by shrinking away `key`, and then leaves it alone. */
  ghost predicate Since(h0: History, h: History, key: nat)
  {
    h.Then? && (if h.prev == h0 then h.a == Shrink(key) else Since(h0, h.prev, key) && LeavesAlone(h.prev.x, h.a, key))
  }

  ghost predicate Out(x: State, key: nat) { key in x.vm.pt && !x.vm.pt[key].present }

  lemma {:induction false} SinceLeavesOne(h0: History, h: History, key: nat)
    requires IsHistory(h) && IsHistory(h0) && Careful(h0) && Out(h0.x, key) && Since(h0, h, key)
    ensures OwnOk(h0.x, key) && OneStale(h.x, key, h0.x.own[key], h0.x.vm.flat[key])
  {
    if h.prev == h0 {
      CarefulShrinking(h0);
      ShrinkLeavesOne(h0.x, key);
    } else {
      SinceLeavesOne(h0, h.prev, key);
      OneStaleStep(h.prev.x, h.a, key, h0.x.own[key], h0.x.vm.flat[key]);
    }
  }

  /** However a history goes on after a page was shrunk away while it was out: when the page exists
      again and is out again, a fault brings back what was written last if and only if it was evicted
      to a lower slot than the one left behind, or the contents left behind are the same. */
  lemma ReadIsRightWhen(h0: History, h: History, key: nat)
    requires IsHistory(h) && IsHistory(h0) && Careful(h0) && Out(h0.x, key) && Since(h0, h, key) && Out(h.x, key)
    ensures OwnOk(h0.x, key) && OwnOk(h.x, key) && Found(h.x, key) < |h.x.vm.slots|
    ensures h.x.vm.slots[Found(h.x, key)] == h.x.vm.flat[key] <==>
      h.x.own[key] < h0.x.own[key] || h0.x.vm.flat[key] == h.x.vm.flat[key]
  {
    SinceLeavesOne(h0, h, key);
    assert OwnOk(h.x, key);
    FindsTheLower(h.x, key, h0.x.own[key], h0.x.vm.flat[key]);
  }

  lemma FindsTheLower(x: State, key: nat, o: nat, c: Page)
    requires OneStale(x, key, o, c) && OwnOk(x, key)
    ensures Found(x, key) == if x.own[key] < o then x.own[key] else o
  {
  }

  lemma Extend(h: History, a: Action) returns (h': History)
    requires IsHistory(h) && Allowed(h.x, a)
    ensures h' == History.Then(h, a, Next(h.x, a)) && IsHistory(h')
  {
    h' := History.Then(h, a, Next(h.x, a));
  }

  /** Go on by an action that leaves `key` alone. */
  lemma GoOn(h0: History, h: History, key: nat, a: Action) returns (h': History)
    requires IsHistory(h) && Since(h0, h, key) && h != h0 && Allowed(h.x, a) && LeavesAlone(h.x, a, key)
    requires Longer(h0, h)
    ensures h' == History.Then(h, a, Next(h.x, a)) && IsHistory(h') && Since(h0, h', key) && Longer(h0, h')
  {
    h' := Extend(h, a);
  }

  function Length(h: History): (n: nat) { if h.Start? then 0 else Length(h.prev) + 1 }

  predicate Longer(h0: History, h: History) { Length(h0) < Length(h) }

  /** The page is shrunk away, grows back in the first free frame and is written with b. */
  lemma GrownBack(h0: History, key: nat, b: Page) returns (h: History)
    requires IsHistory(h0) && Careful(h0) && Out(h0.x, key) && h0.x.vm.free != []
    ensures IsHistory(h) && Since(h0, h, key) && Longer(h0, h)
    ensures key in h.x.vm.pt && h.x.vm.pt[key].present && h.x.vm.pt[key].frame in h.x.vm.frames
    ensures h.x.vm.queue == h0.x.vm.queue + [Entry(key, false)] && key != 0
    ensures h.x.vm.swapMap == h0.x.vm.swapMap && |h.x.vm.slots| == |h0.x.vm.slots| == |h0.x.vm.swapMap|
    ensures key in h.x.vm.flat && h.x.vm.flat[key] == b
  {
    h := MappedBack(h0, key);
    h := GoOn(h0, h, key, Paging(Write(key, b)));
    h := GoOn(h0, h, key, Paging(Enqueue(key, false)));
  }

  lemma MappedBack(h0: History, key: nat) returns (h: History)
    requires IsHistory(h0) && Careful(h0) && Out(h0.x, key) && h0.x.vm.free != []
    ensures IsHistory(h) && Since(h0, h, key) && Longer(h0, h) && key != 0
    ensures key in h.x.vm.pt && h.x.vm.pt[key].present && h.x.vm.pt[key].frame in h.x.vm.frames
    ensures h.x.vm.queue == h0.x.vm.queue && forall i :: 0 <= i < |h.x.vm.queue| ==> h.x.vm.queue[i].key != key
    ensures h.x.vm.swapMap == h0.x.vm.swapMap && |h.x.vm.slots| == |h0.x.vm.slots| == |h0.x.vm.swapMap|
  {
    OutFacts(h0, key);
    var f := h0.x.vm.free[0];
    h := Extend(h0, Shrink(key));
    h := GoOn(h0, h, key, Paging(Take));
    h := GoOn(h0, h, key, Paging(Map(key, f)));
  }

  lemma OutFacts(h0: History, key: nat)
    requires IsHistory(h0) && Careful(h0) && Out(h0.x, key) && h0.x.vm.free != []
    ensures key != 0 && h0.x.vm.free[0] in h0.x.vm.frames && |h0.x.vm.slots| == |h0.x.vm.swapMap|
    ensures forall i :: 0 <= i < |h0.x.vm.queue| ==> h0.x.vm.queue[i].key != key
  {
    CarefulShrinking(h0);
  }

  /** The page shrunk away, grown back and written with b is evicted and faulted in again: it reads b
      if and only if at the start the first free slot was below the page's slot, or the page held b. */
  lemma StaleReadWhen(h0: History, key: nat, b: Page) returns (h: History)
    requires IsHistory(h0) && Careful(h0) && Out(h0.x, key) && h0.x.vm.free != [] && 0 in h0.x.vm.swapMap
    ensures IsHistory(h) && key in h.x.vm.pt && h.x.vm.pt[key].present && h.x.vm.pt[key].frame in h.x.vm.frames
    ensures key in h.x.vm.flat && h.x.vm.flat[key] == b && OwnOk(h0.x, key)
    ensures h.x.vm.frames[h.x.vm.pt[key].frame] == b <==>
      FirstSlot(h0.x.vm.swapMap, 0) < h0.x.own[key] || h0.x.vm.flat[key] == b
  {
    var out := OutAgain(h0, key, b);
    ReadIsRightWhen(h0, out, key);
    h := FaultedIn(out, key);
  }

  lemma OutAgain(h0: History, key: nat, b: Page) returns (h: History)
    requires IsHistory(h0) && Careful(h0) && Out(h0.x, key) && h0.x.vm.free != [] && 0 in h0.x.vm.swapMap
    ensures IsHistory(h) && Since(h0, h, key) && Out(h.x, key) && h.x.vm.free != [] && Good(h.x)
    ensures key in h.x.own && h.x.own[key] == FirstSlot(h0.x.vm.swapMap, 0)
    ensures key in h.x.vm.flat && h.x.vm.flat[key] == b
  {
    h := GrownBack(h0, key, b);
    h := GoOn(h0, h, key, Paging(Evict(|h0.x.vm.queue|, FirstSlot(h0.x.vm.swapMap, 0))));
    SinceLeavesOne(h0, h, key);
  }

  /** A fault on a page that is out, with a free frame. */
  lemma FaultedIn(h: History, key: nat) returns (h': History)
    requires IsHistory(h) && Good(h.x) && Out(h.x, key) && h.x.vm.free != []
    ensures IsHistory(h') && key in h'.x.vm.pt && h'.x.vm.pt[key].present && h'.x.vm.flat == h.x.vm.flat
    ensures h'.x.vm.pt[key].frame in h'.x.vm.frames && Found(h.x, key) < |h.x.vm.slots|
    ensures h'.x.vm.frames[h'.x.vm.pt[key].frame] == h.x.vm.slots[Found(h.x, key)]
  {
    assert OwnOk(h.x, key);
    var f := h.x.vm.free[0];
    h' := Extend(h, Paging(Take));
    h' := Extend(h', Paging(Load(key, Found(h.x, key), f)));
  }

  // ----- a concrete case -----

  /** With one frame and two slots: a page with contents a is evicted to the lower slot. */
  lemma EvictedOnce(a: Page, key: nat) returns (h: History)
    requires key != 0
    ensures IsHistory(h) && Careful(h) && Out(h.x, key) && h.x.vm.free != [] && h.x.vm.swapMap == [key, 0]
    ensures h.x.own == map[key := 0] && h.x.vm.flat == map[key := a]
  {
    h := History.Start(State(Vm(map[7 := a], [7], {}, map[], [], [0, 0], [a, a], map[]), map[]));
    h := Paged(h, Take);
    h := Paged(h, Map(key, 7));
    assert h.x.vm == Vm(map[7 := a], [], {}, map[key := Pte(7, true)], [], [0, 0], [a, a], map[key := a]);
    h := Paged(h, Enqueue(key, false));
    h := Paged(h, Evict(0, 0));
  }

  lemma Paged(h: History, e: Event) returns (h': History)
    requires IsHistory(h) && Careful(h) && Allowed(h.x, Paging(e))
    ensures h' == History.Then(h, Paging(e), Next(h.x, Paging(e))) && IsHistory(h') && Careful(h')
  {
    h' := Extend(h, Paging(e));
  }

  /** The page reads a although b was written last. */
  lemma StaleRead(a: Page, b: Page, key: nat) returns (h: History)
    requires key != 0 && a != b
    ensures IsHistory(h) && key in h.x.vm.pt && h.x.vm.pt[key].present && h.x.vm.pt[key].frame in h.x.vm.frames
    ensures key in h.x.vm.flat && h.x.vm.flat[key] == b && h.x.vm.frames[h.x.vm.pt[key].frame] != b
  {
    var h0 := EvictedOnce(a, key);
    assert h0.x.vm.swapMap[1] == 0;
    h := StaleReadWhen(h0, key, b);
  }
}
