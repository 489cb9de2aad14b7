/**
  When the paging code can find a frame (src/kalloc.c:80-96, src/vm.c:488-546): how many frames are
  free, how many pages may be evicted, how many swap slots are left to evict them to, and how many
  slabs are left for queue entries.
 */
module SwapSupply {
  import opened Common
  import Slab

  datatype Supply = Supply(free: nat, queued: nat, slots: nat, slabs: nat)

  /** `kalloc`, or None for the panic of `page_out` or `alloc_slot`. */
  function TakeFrame(s: Supply): (r: Option<Supply>)
  {
    if s.free > 0 then Some(s.(free := s.free - 1))
    else if s.queued > 0 && s.slots > 0 then Some(s.(queued := s.queued - 1, slots := s.slots - 1))
    else None
  }

  /** `alloc_slab`. */
  function TakeSlab(s: Supply): (r: Option<Supply>)
  {
    if s.slabs > 0 then Some(s.(slabs := s.slabs - 1))
    else
      var t := TakeFrame(s);
      if t.None? then None else Some(t.value.(slabs := Slab.PERPAGE - 1))
  }

  /** `add_page`. */
  function AddOne(s: Supply): (r: Option<Supply>)
  {
    var t := TakeSlab(s);
    if t.None? then None else Some(t.value.(queued := t.value.queued + 1))
  }

  /** `page_in`, which also gives a slot back. */
  function FaultIn(s: Supply): (r: Option<Supply>)
  {
    var t := TakeFrame(s);
    if t.None? then None else AddOne(t.value.(slots := t.value.slots + 1))
  }

  /** The frames for a new page: its own, and one for a table if that is missing. */
  function TakePage(s: Supply, newTable: bool): (r: Option<Supply>)
  {
    var t := TakeFrame(s);
    if t.None? || !newTable then t else TakeFrame(t.value)
  }

  /** One round of `allocuvm`. */
  function GrowOne(s: Supply, newTable: bool, evictable: bool): (r: Option<Supply>)
  {
    var t := TakePage(s, newTable);
    if t.None? || !evictable then t else AddOne(t.value)
  }

  /** The rounds of `allocuvm` from address i on. */
  function GrowAll(s: Supply, lo: nat, i: nat, hi: nat, newTable: nat -> bool): (r: Option<Supply>)
    decreases hi - i
  {
    if i >= hi then Some(s)
    else
      var t := GrowOne(s, newTable(i), i > lo);
      if t.None? then None else GrowAll(t.value, lo, i + PGSIZE, hi, newTable)
  }

  // ----- how far a supply lasts -----

  /** The frames that can be had without giving anything back. */
  function Room(s: Supply): (n: int) { s.free + Min(s.queued, s.slots) }

  /** A frame is found if and only if there is room, and costs one of it. */
  lemma FrameNeedsRoom(s: Supply)
    ensures TakeFrame(s).Some? <==> Room(s) > 0
    ensures TakeFrame(s).Some? ==> Room(TakeFrame(s).value) == Room(s) - 1
  {
  }

  /** A fault is served if and only if there is room for its frame and, when the slabs are used up,
      a second frame free or in use by a page that can be evicted to the slot given back. */
  lemma FaultIsServedWhen(s: Supply)
    ensures FaultIn(s).Some? <==> Room(s) > 0 && (s.slabs == 0 ==> s.free + s.queued >= 2)
  {
  }

  /** What one round of growth asks for. */
  function Cost(newTable: bool, evictable: bool, slabs: nat): (n: nat)
  {
    1 + (if newTable then 1 else 0) + (if evictable && slabs == 0 then 1 else 0)
  }

  /** One round succeeds if and only if there is room for its frames. */
  lemma GrowOneNeedsRoom(s: Supply, newTable: bool, evictable: bool)
    ensures GrowOne(s, newTable, evictable).Some? <==> Cost(newTable, evictable, s.slabs) <= Room(s)
    ensures GrowOne(s, newTable, evictable).Some? ==>
      Room(GrowOne(s, newTable, evictable).value) >= Room(s) - Cost(newTable, evictable, s.slabs)
  {
    TakePageNeedsRoom(s, newTable);
    if TakePage(s, newTable).Some? {
      AddOneNeedsRoom(TakePage(s, newTable).value);
    }
  }

  lemma TakePageNeedsRoom(s: Supply, newTable: bool)
    ensures var n := if newTable then 2 else 1;
      if n > Room(s) then TakePage(s, newTable).None?
      else
        var t := TakePage(s, newTable);
        t.Some? && Room(t.value) == Room(s) - n && t.value.slabs == s.slabs
  {
    FrameNeedsRoom(s);
    if TakeFrame(s).Some? {
      FrameNeedsRoom(TakeFrame(s).value);
    }
  }

  lemma AddOneNeedsRoom(s: Supply)
    ensures var n := if s.slabs == 0 then 1 else 0;
      if n <= Room(s) then AddOne(s).Some? && Room(AddOne(s).value) >= Room(s) - n else AddOne(s).None?
  {
    FrameNeedsRoom(s);
  }

  function SlabsAfter(evictable: bool, slabs: nat): (n: nat)
  {
    if !evictable then slabs else if slabs == 0 then Slab.PERPAGE - 1 else slabs - 1
  }

  // ----- copying an address space out of free frames alone -----

  /** What one round of `copyuvm` asks for: a page that is out is faulted in first. */
  function CopyCost(present: bool, newTable: bool, evictable: bool, slabs: nat): (n: nat)
  {
    if present then Cost(newTable, evictable, slabs)
    else 1 + (if slabs == 0 then 1 else 0) + Cost(newTable, evictable, SlabsAfter(true, slabs))
  }

  /** One round of `copyuvm`. */
  function CopyOne(s: Supply, present: bool, newTable: bool, evictable: bool): (r: Option<Supply>)
  {
    if present then GrowOne(s, newTable, evictable)
    else
      var t := FaultIn(s);
      if t.None? then None else GrowOne(t.value, newTable, evictable)
  }

  function SlabsCopied(present: bool, evictable: bool, slabs: nat): (n: nat)
  {
    SlabsAfter(evictable, if present then slabs else SlabsAfter(true, slabs))
  }

  /** With enough free frames a round of growth takes just those. */
  lemma GrowFromFree(s: Supply, newTable: bool, evictable: bool)
    requires Cost(newTable, evictable, s.slabs) <= s.free
    ensures var n := Cost(newTable, evictable, s.slabs);
      GrowOne(s, newTable, evictable) ==
      Some(Supply(s.free - n, if evictable then s.queued + 1 else s.queued, s.slots, SlabsAfter(evictable, s.slabs)))
  {
  }

  lemma FaultFromFree(s: Supply)
    requires 1 + (if s.slabs == 0 then 1 else 0) <= s.free
    ensures FaultIn(s) ==
      Some(Supply(s.free - 1 - (if s.slabs == 0 then 1 else 0), s.queued + 1, s.slots + 1, SlabsAfter(true, s.slabs)))
  {
  }

  /** With enough free frames a round of `copyuvm` takes just those. */
  lemma CopyFromFree(s: Supply, present: bool, newTable: bool, evictable: bool)
    requires CopyCost(present, newTable, evictable, s.slabs) <= s.free
    ensures var t := CopyOne(s, present, newTable, evictable);
      && t.Some? && t.value.free == s.free - CopyCost(present, newTable, evictable, s.slabs)
      && t.value.slabs == SlabsCopied(present, evictable, s.slabs)
  {
    if present {
      GrowFromFree(s, newTable, evictable);
    } else {
      FaultFromFree(s);
      GrowFromFree(FaultIn(s).value, newTable, evictable);
    }
  }

  // ----- growth as a whole -----

  /** What the whole growth asks for. */
  function Demand(lo: nat, i: nat, hi: nat, newTable: nat -> bool, slabs: nat): (n: nat)
    decreases hi - i
  {
    if i >= hi then 0
    else Cost(newTable(i), i > lo, slabs) + Demand(lo, i + PGSIZE, hi, newTable, SlabsAfter(i > lo, slabs))
  }

  /** With room for every page, table and slab page that it asks for, growth does not panic. */
  lemma {:induction false} EnoughRoom(s: Supply, lo: nat, i: nat, hi: nat, newTable: nat -> bool)
    requires Demand(lo, i, hi, newTable, s.slabs) <= Room(s)
    ensures GrowAll(s, lo, i, hi, newTable).Some?
    decreases hi - i
  {
    if i < hi {
      GrowOneNeedsRoom(s, newTable(i), i > lo);
      EnoughRoom(GrowOne(s, newTable(i), i > lo).value, lo, i + PGSIZE, hi, newTable);
    }
  }

  /** With every slot of the swap in use, that much is also necessary. */
  lemma {:induction false} NeededWithoutSwap(s: Supply, lo: nat, i: nat, hi: nat, newTable: nat -> bool)
    requires s.slots == 0
    ensures GrowAll(s, lo, i, hi, newTable).Some? <==> Demand(lo, i, hi, newTable, s.slabs) <= s.free
    decreases hi - i
  {
    if i < hi {
      GrowOneNeedsRoom(s, newTable(i), i > lo);
      if Cost(newTable(i), i > lo, s.slabs) <= s.free {
        GrowFromFree(s, newTable(i), i > lo);
        NeededWithoutSwap(GrowOne(s, newTable(i), i > lo).value, lo, i + PGSIZE, hi, newTable);
      }
    }
  }
}
