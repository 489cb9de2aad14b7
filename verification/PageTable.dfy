/**
  `walkpgdir` and `mappages` (src/vm.c:92-144): two-level page tables refine a flat map from virtual
  page numbers to entries.

  Addresses are 32 bits wide and wrap.  The `kalloc` that makes a table page takes a free frame, or
  evicts a page if there is none (src/kalloc.c:82-83), maybe a page of this very address space; it
  never returns null, but panics when nothing can be evicted.
 */
module PageTable {
  import opened Common

  const ENTRIES: nat := 1024
  const PAGES: nat := 0x10_0000           // pages in the address space
  const SPACE: nat := 0x1_0000_0000       // PAGES * PGSIZE

  datatype Pte = Pte(present: bool, frame: nat, perm: nat)
  datatype Pde = NoTable | Table(frame: nat)

  /** A page that may be evicted: one of this address space, or another's, known by its frame. */
  datatype Victim = Mine(page: nat) | Other(frame: nat)

  /** An entry of the page queue with its reference bit. */
  datatype Entry = Entry(victim: Victim, accessed: bool)

  /** `slots` counts the free swap slots. */
  datatype Space = Space(pgdir: seq<Pde>, tables: map<nat, seq<Pte>>, free: seq<nat>, queue: seq<Entry>, slots: nat)

  ghost predicate DirOk(pgdir: seq<Pde>, tables: map<nat, seq<Pte>>)
  {
    && |pgdir| == ENTRIES
    && (forall d :: 0 <= d < ENTRIES && pgdir[d].Table? ==>
          pgdir[d].frame in tables && |tables[pgdir[d].frame]| == ENTRIES)
    && (forall d, e :: 0 <= d < e < ENTRIES && pgdir[d].Table? && pgdir[e].Table? ==> pgdir[d].frame != pgdir[e].frame)
  }

  /** The entry of a page; a missing table stands for empty entries. */
  ghost function Lookup(s: Space, page: nat): Pte
    requires DirOk(s.pgdir, s.tables) && page < PAGES
  {
    match s.pgdir[page / ENTRIES]
    case NoTable => Pte(false, 0, 0)
    case Table(t) => s.tables[t][page % ENTRIES]
  }

  /** What the hardware does with an address: ten bits for the directory, ten for the table. */
  lemma HardwareLookup(s: Space, va: nat)
    requires DirOk(s.pgdir, s.tables) && va < 0x1_0000_0000
    ensures s.pgdir[va / 0x40_0000].Table? ==>
      Lookup(s, va / 0x1000) == s.tables[s.pgdir[va / 0x40_0000].frame][va / 0x1000 % 0x400]
    ensures s.pgdir[va / 0x40_0000].NoTable? ==> !Lookup(s, va / 0x1000).present
  {
    assert va / 0x1000 / 0x400 == va / 0x40_0000;
  }

  ghost function FrameOf(s: Space, v: Victim): nat
    requires DirOk(s.pgdir, s.tables)
  {
    match v
    case Mine(page) => if page < PAGES then Lookup(s, page).frame else 0
    case Other(frame) => frame
  }

  /** Queued pages are present, and their frames hold no table and are not free. */
  ghost predicate VictimOk(s: Space, v: Victim)
    requires DirOk(s.pgdir, s.tables)
  {
    (v.Mine? ==> v.page < PAGES && Lookup(s, v.page).present) && FrameOf(s, v) !in s.tables && FrameOf(s, v) !in s.free
  }

  /** Tables are not shared, and free, queued and table frames are different frames. */
  ghost predicate Ok(s: Space)
  {
    && DirOk(s.pgdir, s.tables)
    && (forall i :: 0 <= i < |s.free| ==> s.free[i] !in s.tables)
    && (forall i, j :: 0 <= i < j < |s.free| ==> s.free[i] != s.free[j])
    && (forall i :: 0 <= i < |s.queue| ==> VictimOk(s, s.queue[i].victim))
    && (forall i, j :: 0 <= i < j < |s.queue| ==> FrameOf(s, s.queue[i].victim) != FrameOf(s, s.queue[j].victim))
  }

  // ----- taking a frame -----

  /** The entry that `sel_page` picks: the first without its bit, or the first of all. */
  function Picked(q: seq<Entry>): (v: nat)
    requires q != []
    ensures v < |q|
  {
    var i := FirstClear(q, 0);
    if i < |q| then i else 0
  }

  /** The first entry from i on without its bit, or |q|. */
  function FirstClear(q: seq<Entry>, i: nat): (j: nat)
    requires i <= |q|
    ensures i <= j <= |q| && (j < |q| ==> !q[j].accessed)
    decreases |q| - i
  {
    if i == |q| || !q[i].accessed then i else FirstClear(q, i + 1)
  }

  /** The queue with the bits of its first n entries cleared. */
  function Cleared(q: seq<Entry>, n: nat): (q': seq<Entry>)
    ensures |q'| == |q|
  {
    seq(|q|, i requires 0 <= i < |q| => Entry(q[i].victim, q[i].accessed && i >= n))
  }

  /** The queue behind an eviction: the bits looked at are cleared, the entry picked is gone. */
  function Shorter(q: seq<Entry>): (q': seq<Entry>)
    requires q != []
    ensures |q'| == |q| - 1
  {
    var c := Cleared(q, FirstClear(q, 0));
    c[..Picked(q)] + c[Picked(q) + 1..]
  }

  /** Second chance: the entry picked is the first without its bit, or the first of all if every bit is
      set; the bits in front of it are cleared, in the latter case all of them. */
  lemma SecondChanceIs(q: seq<Entry>, i: nat)
    requires q != [] && i < |q|
    ensures i < FirstClear(q, 0) ==> q[i].accessed
    ensures Picked(q) == if q[Picked(q)].accessed then 0 else FirstClear(q, 0)
    ensures q[Picked(q)].accessed ==> q[i].accessed
    ensures Cleared(q, FirstClear(q, 0))[i] == Entry(q[i].victim, q[i].accessed && i >= FirstClear(q, 0))
  {
    BeforeClear(q, 0, i);
  }

  lemma {:induction false} BeforeClear(q: seq<Entry>, a: nat, i: nat)
    requires a <= i < |q|
    ensures i < FirstClear(q, a) ==> q[i].accessed
    decreases |q| - a
  {
    if q[a].accessed && a < i {
      BeforeClear(q, a + 1, i);
    }
  }

  /** The other entries stay in order. */
  lemma ShorterVictim(q: seq<Entry>, i: nat)
    requires i < |q| - 1
    ensures Shorter(q)[i].victim == q[if i < Picked(q) then i else i + 1].victim
  {
    var c := Cleared(q, FirstClear(q, 0));
    assert c[if i < Picked(q) then i else i + 1].victim == q[if i < Picked(q) then i else i + 1].victim;
  }

  /** `page_out`, whose frame the caller gets. */
  ghost function Evicted(s: Space): Space
    requires Ok(s) && s.queue != [] && s.slots > 0
  {
    var s' := s.(queue := Shorter(s.queue), slots := s.slots - 1);
    match Leaver(s)
    case Other(_) => s'
    case Mine(page) =>
      assert VictimOk(s, s.queue[Picked(s.queue)].victim);
      var t := s.pgdir[page / ENTRIES].frame;
      s'.(tables := s.tables[t := s.tables[t][page % ENTRIES := Lookup(s, page).(present := false)]])
  }

  /** The page that `page_out` evicts. */
  ghost function Leaver(s: Space): Victim
    requires s.queue != []
  {
    s.queue[Picked(s.queue)].victim
  }

  lemma EvictedParts(s: Space)
    requires Ok(s) && s.queue != [] && s.slots > 0
    ensures var s' := Evicted(s);
      && s' == Space(s.pgdir, s'.tables, s.free, Shorter(s.queue), s.slots - 1)
      && (Leaver(s).Other? ==> s'.tables == s.tables)
    ensures Leaver(s).Mine? ==>
      var page := Leaver(s).page;
      page < PAGES && s.pgdir[page / ENTRIES].Table?
    ensures Leaver(s).Mine? ==>
      var page := Leaver(s).page;
      var t := s.pgdir[page / ENTRIES].frame;
      Evicted(s).tables == s.tables[t := s.tables[t][page % ENTRIES := s.tables[t][page % ENTRIES].(present := false)]]
  {
    assert VictimOk(s, Leaver(s));
  }

  /** A frame that nothing refers to. */
  ghost predicate Unused(s: Space, f: nat)
    requires DirOk(s.pgdir, s.tables)
  {
    f !in s.tables && f !in s.free && forall i :: 0 <= i < |s.queue| ==> FrameOf(s, s.queue[i].victim) != f
  }

  /** A frame is free, or a page can be evicted. */
  ghost predicate CanTake(s: Space) { s.free != [] || (s.queue != [] && s.slots > 0) }

  /** `kalloc`. */
  ghost function Taken(s: Space): Space
    requires Ok(s) && CanTake(s)
  {
    if s.free != [] then s.(free := s.free[1..]) else Evicted(s)
  }

  ghost function TakenFrame(s: Space): nat
    requires Ok(s) && CanTake(s)
  {
    if s.free != [] then s.free[0] else FrameOf(s, Leaver(s))
  }

  /** The entry of a page, evicted or not. */
  ghost function After(pte: Pte, gone: bool): Pte
  {
    if gone then pte.(present := false) else pte
  }

  /** An eviction clears the present bit of its page and changes no other entry. */
  lemma EvictedLookups(s: Space, q: nat)
    requires Ok(s) && s.queue != [] && s.slots > 0 && q < PAGES
    ensures DirOk(Evicted(s).pgdir, Evicted(s).tables)
    ensures Lookup(Evicted(s), q) == After(Lookup(s, q), Leaver(s) == Mine(q))
  {
    assert VictimOk(s, Leaver(s));
  }

  lemma EvictedFrames(s: Space, w: Victim)
    requires Ok(s) && s.queue != [] && s.slots > 0
    ensures DirOk(Evicted(s).pgdir, Evicted(s).tables) && FrameOf(Evicted(s), w) == FrameOf(s, w)
    ensures Evicted(s).tables.Keys == s.tables.Keys
  {
    assert VictimOk(s, Leaver(s));
    EvictedLookups(s, 0);
    if w.Mine? && w.page < PAGES {
      EvictedLookups(s, w.page);
    }
  }

  /** A queue entry that is not picked is another page. */
  lemma Survivor(s: Space, i: nat)
    requires Ok(s) && s.queue != [] && s.slots > 0 && i < |s.queue| && i != Picked(s.queue)
    ensures DirOk(Evicted(s).pgdir, Evicted(s).tables) && VictimOk(Evicted(s), s.queue[i].victim)
    ensures FrameOf(s, s.queue[i].victim) != FrameOf(s, Leaver(s))
  {
    var w := s.queue[i].victim;
    assert VictimOk(s, w);
    EvictedFrames(s, w);
    if w.Mine? {
      EvictedLookups(s, w.page);
    }
  }

  lemma EvictedOk(s: Space)
    requires Ok(s) && s.queue != [] && s.slots > 0 && s.free == []
    ensures Ok(Evicted(s)) && Unused(Evicted(s), FrameOf(s, Leaver(s)))
  {
    var s', v := Evicted(s), Picked(s.queue);
    EvictedLookups(s, 0);
    assert VictimOk(s, Leaver(s));
    EvictedFrames(s, Leaver(s));
    forall i: nat | i < |s'.queue|
      ensures VictimOk(s', s'.queue[i].victim)
      ensures FrameOf(s', s'.queue[i].victim) == FrameOf(s, s.queue[if i < v then i else i + 1].victim)
      ensures FrameOf(s', s'.queue[i].victim) != FrameOf(s, Leaver(s))
    {
      ShorterVictim(s.queue, i);
      Survivor(s, if i < v then i else i + 1);
      EvictedFrames(s, s'.queue[i].victim);
    }
  }

  lemma TakenOk(s: Space)
    requires Ok(s) && CanTake(s)
    ensures Ok(Taken(s)) && Unused(Taken(s), TakenFrame(s))
  {
    if s.free == [] {
      EvictedOk(s);
    } else {
      FreeOk(s);
    }
  }

  lemma FreeOk(s: Space)
    requires Ok(s) && s.free != []
    ensures Ok(s.(free := s.free[1..])) && Unused(s.(free := s.free[1..]), s.free[0])
  {
    var s' := s.(free := s.free[1..]);
    forall i: nat | i < |s.queue|
      ensures VictimOk(s', s.queue[i].victim) && FrameOf(s', s.queue[i].victim) == FrameOf(s, s.queue[i].victim)
      ensures FrameOf(s, s.queue[i].victim) != s.free[0]
    {
      assert VictimOk(s, s.queue[i].victim);
    }
  }

  // ----- adding a table -----

  ghost predicate ZeroTable(t: seq<Pte>)
  {
    |t| == ENTRIES && forall i :: 0 <= i < ENTRIES ==> t[i] == Pte(false, 0, 0)
  }

  ghost function Added(s: Space, d: nat, f: nat, t: seq<Pte>): Space
    requires d < |s.pgdir|
  {
    s.(pgdir := s.pgdir[d := Table(f)], tables := s.tables[f := t])
  }

  /** A fresh, cleared table changes no lookup. */
  lemma NewTableKeepsLookups(s: Space, d: nat, f: nat, t: seq<Pte>, page: nat)
    requires Ok(s) && d < ENTRIES && s.pgdir[d].NoTable? && Unused(s, f) && ZeroTable(t) && page < PAGES
    ensures DirOk(Added(s, d, f, t).pgdir, Added(s, d, f, t).tables)
    ensures Lookup(Added(s, d, f, t), page) == Lookup(s, page)
  {
  }

  lemma AddedOk(s: Space, d: nat, f: nat, t: seq<Pte>)
    requires Ok(s) && d < ENTRIES && s.pgdir[d].NoTable? && Unused(s, f) && ZeroTable(t)
    ensures Ok(Added(s, d, f, t))
  {
    var s' := Added(s, d, f, t);
    NewTableKeepsLookups(s, d, f, t, 0);
    forall i: nat | i < |s.queue|
      ensures VictimOk(s', s.queue[i].victim) && FrameOf(s', s.queue[i].victim) == FrameOf(s, s.queue[i].victim)
    {
      assert VictimOk(s, s.queue[i].victim);
      if s.queue[i].victim.Mine? {
        NewTableKeepsLookups(s, d, f, t, s.queue[i].victim.page);
      }
    }
  }

  /** `walkpgdir`: if the table is missing, a frame is taken and becomes the table. */
  ghost function Walked(s: Space, page: nat, t: seq<Pte>): Space
    requires Ok(s) && page < PAGES && CanTake(s)
  {
    TakenDir(s);
    if s.pgdir[page / ENTRIES].Table? then s else Added(Taken(s), page / ENTRIES, TakenFrame(s), t)
  }

  lemma TakenDir(s: Space)
    requires Ok(s) && CanTake(s)
    ensures Taken(s).pgdir == s.pgdir
  {
  }

  /** What a walk evicts. */
  ghost function Leaving(s: Space, page: nat): seq<Victim>
    requires |s.pgdir| == ENTRIES && page < PAGES && CanTake(s)
  {
    if s.pgdir[page / ENTRIES].NoTable? && s.free == [] then [Leaver(s)] else []
  }

  /** A walk changes at most the entry of the page evicted for its table: the present bit. */
  lemma WalkedLookups(s: Space, page: nat, t: seq<Pte>, q: nat)
    requires Ok(s) && page < PAGES && q < PAGES && CanTake(s) && ZeroTable(t)
    ensures Ok(Walked(s, page, t)) && Lookup(Walked(s, page, t), q) == After(Lookup(s, q), Mine(q) in Leaving(s, page))
  {
    if s.pgdir[page / ENTRIES].NoTable? {
      TakenOk(s);
      AddedOk(Taken(s), page / ENTRIES, TakenFrame(s), t);
      NewTableKeepsLookups(Taken(s), page / ENTRIES, TakenFrame(s), t, q);
      if s.free == [] {
        EvictedLookups(s, q);
      }
    }
  }

  /** A walk changes no lookup if and only if the table exists, a frame is free, or the page that
      `sel_page` picks belongs to another address space. */
  lemma WalkIsInvisibleWhen(s: Space, page: nat, t: seq<Pte>)
    requires Ok(s) && page < PAGES && CanTake(s) && ZeroTable(t)
    ensures Ok(Walked(s, page, t))
    ensures (forall q: nat :: q < PAGES ==> Lookup(Walked(s, page, t), q) == Lookup(s, q)) <==>
      s.pgdir[page / ENTRIES].Table? || s.free != [] || Leaver(s).Other?
  {
    WalkedLookups(s, page, t, 0);
    forall q: nat | q < PAGES
      ensures Lookup(Walked(s, page, t), q) == After(Lookup(s, q), Mine(q) in Leaving(s, page))
    {
      WalkedLookups(s, page, t, q);
    }
    if !(s.pgdir[page / ENTRIES].Table? || s.free != [] || Leaver(s).Other?) {
      assert VictimOk(s, Leaver(s));
      assert Lookup(Walked(s, page, t), Leaver(s).page) != Lookup(s, Leaver(s).page);
    }
  }

  const KERNEL: nat := 512    // first directory entry of the kernel's half

  predicate HasTable(f: nat) { f == 5 || 1000 + KERNEL <= f }

  /** A directory with the kernel's tables and one table for the process, whose page 1 is queued. */
  lemma CrowdedSpace(zero: seq<Pte>) returns (s: Space)
    requires ZeroTable(zero)
    ensures Ok(s) && (forall d :: KERNEL <= d < ENTRIES ==> s.pgdir[d].Table?) && s.pgdir[1].NoTable?
    ensures s.free == [] && s.queue == [Entry(Mine(1), false)] && s.slots == 1
    ensures Lookup(s, 1) == Pte(true, 7, 6)
  {
    var pgdir := seq(ENTRIES, d => if d == 0 then Table(5) else if d < KERNEL then NoTable else Table(1000 + d));
    var low := zero[1 := Pte(true, 7, 6)];
    var tables := map f: nat | f < 1000 + ENTRIES && HasTable(f) :: if f == 5 then low else zero;
    s := Space(pgdir, tables, [], [Entry(Mine(1), false)], 1);
    assert DirOk(pgdir, tables);
    assert Lookup(s, 1) == Pte(true, 7, 6);
    assert VictimOk(s, Mine(1));
  }

  /** It happens: no frame is free there, and the walk to page 1024 needs a table. */
  lemma WalkEvictsNeighbour(zero: seq<Pte>) returns (s: Space)
    requires ZeroTable(zero)
    ensures Ok(s) && (forall d :: KERNEL <= d < ENTRIES ==> s.pgdir[d].Table?)
    ensures s.queue == [Entry(Mine(1), false)] && s.slots == 1 && Lookup(s, 1) == Pte(true, 7, 6)
    ensures Ok(Walked(s, 1024, zero)) && Lookup(Walked(s, 1024, zero), 1) == Pte(false, 7, 6)
  {
    s := CrowdedSpace(zero);
    WalkedLookups(s, 1024, zero, 1);
  }

  // ----- entering a page -----

  ghost function Entered(s: Space, page: nat, pte: Pte): Space
    requires DirOk(s.pgdir, s.tables) && page < PAGES && s.pgdir[page / ENTRIES].Table?
  {
    var t := s.pgdir[page / ENTRIES].frame;
    s.(tables := s.tables[t := s.tables[t][page % ENTRIES := pte]])
  }

  /** Writing one entry changes the lookup of one page. */
  lemma SetEntry(s: Space, page: nat, pte: Pte, other: nat)
    requires DirOk(s.pgdir, s.tables) && page < PAGES && other < PAGES && s.pgdir[page / ENTRIES].Table?
    ensures DirOk(Entered(s, page, pte).pgdir, Entered(s, page, pte).tables)
    ensures Lookup(Entered(s, page, pte), other) == if other == page then pte else Lookup(s, other)
  {
  }

  lemma EnteredOk(s: Space, page: nat, pte: Pte)
    requires Ok(s) && page < PAGES && s.pgdir[page / ENTRIES].Table? && !Lookup(s, page).present
    ensures Ok(Entered(s, page, pte))
  {
    var s' := Entered(s, page, pte);
    SetEntry(s, page, pte, 0);
    forall i: nat | i < |s.queue|
      ensures VictimOk(s', s.queue[i].victim) && FrameOf(s', s.queue[i].victim) == FrameOf(s, s.queue[i].victim)
    {
      assert VictimOk(s, s.queue[i].victim);
      if s.queue[i].victim.Mine? {
        SetEntry(s, page, pte, s.queue[i].victim.page);
      }
    }
  }

  // ----- ranges of pages, cyclically -----

  /** How far a page lies behind page b. */
  function Offset(b: nat, page: nat): (i: nat)
    requires b < PAGES && page < PAGES
  {
    (page - b) % PAGES
  }

  lemma OffsetIs(b: nat, page: nat, k: nat)
    requires b < PAGES && page < PAGES && k < PAGES
    ensures Offset(b, page) == k <==> page == (b + k) % PAGES
  {
  }

  function Bottom(va: nat): (b: nat) { va / PGSIZE }

  /** The last page of the range, computed in 32 bits. */
  function Top(va: nat, size: nat): (t: nat)
    ensures t < PAGES
  {
    (va + size - 1) % SPACE / PGSIZE
  }

  /** How many pages `mappages` goes through. */
  function Count(va: nat, size: nat): (n: nat)
    requires va < SPACE
    ensures 1 <= n <= PAGES
  {
    Offset(Bottom(va), Top(va, size)) + 1
  }

  /** The page holds a byte of [va, va + size). */
  predicate Overlaps(page: nat, va: nat, size: nat)
  {
    size > 0 && va / PGSIZE <= page <= (va + size - 1) / PGSIZE
  }

  lemma CoversPage(va: nat, size: nat, page: nat)
    requires va < SPACE && 1 <= size && va + size <= SPACE && page < PAGES
    ensures Offset(Bottom(va), page) < Count(va, size) <==> Overlaps(page, va, size)
  {
  }

  /** For a range inside the address space, up to and including its last page, `mappages` goes
      through exactly the pages of the range if and only if the range is not empty.  An empty range
      takes one page, or, at a page boundary, the whole address space. */
  lemma CoversExactlyWhen(va: nat, size: nat)
    requires va < SPACE && va + size <= SPACE
    ensures size >= 1 <==>
      forall page: nat :: page < PAGES ==> (Offset(Bottom(va), page) < Count(va, size) <==> Overlaps(page, va, size))
    ensures size == 0 ==> Count(va, size) == if va % PGSIZE == 0 then PAGES else 1
  {
    if size >= 1 {
      forall page: nat | page < PAGES
        ensures Offset(Bottom(va), page) < Count(va, size) <==> Overlaps(page, va, size)
      {
        CoversPage(va, size, page);
      }
    } else {
      assert Offset(Bottom(va), Bottom(va)) < Count(va, size);
    }
  }

  // ----- what mappages has done after k pages -----

  /** The page that the (k+1)-st round maps. */
  function PageAt(b: nat, k: nat): (page: nat)
    ensures page < PAGES
  {
    (b + k) % PAGES
  }

  /** The tables that the first k pages from b on need and the directory lacks. */
  ghost function Needed(pgdir: seq<Pde>, b: nat, k: nat): set<nat>
    requires |pgdir| == ENTRIES
  {
    if k == 0 then {}
    else
      var d := PageAt(b, k - 1) / ENTRIES;
      Needed(pgdir, b, k - 1) + (if pgdir[d].NoTable? then {d} else {})
  }

  /** The entry of a page when the first k pages from b on map to the frames from f on. */
  ghost function Expected(pte: Pte, b: nat, page: nat, k: nat, f: nat, perm: nat, gone: bool): Pte
    requires b < PAGES && page < PAGES
  {
    if Offset(b, page) < k then Pte(true, (f + Offset(b, page)) % PAGES, perm) else After(pte, gone)
  }

  /** From s0 to s the first k pages from b on were mapped to the frames from f on and the victims
      left memory; no other entry changed.  No page was mapped over one that was present, unless
      that had been evicted before. */
  ghost predicate MappedFrom(s0: Space, s: Space, b: nat, k: nat, f: nat, perm: nat, victims: seq<Victim>)
    requires Ok(s0) && Ok(s) && b < PAGES
  {
    forall q: nat {:trigger Lookup(s, q)} :: q < PAGES ==>
      && Lookup(s, q) == Expected(Lookup(s0, q), b, q, k, f, perm, Mine(q) in victims)
      && (Offset(b, q) < k ==> !Lookup(s0, q).present || Mine(q) in victims)
  }

  // ----- which pages go -----

  /** The first n pages that `page_out` evicts, by second chance. */
  function Picks(q: seq<Entry>, n: nat): (vs: seq<Victim>)
    requires n <= |q|
    ensures |vs| == n
  {
    if n == 0 then [] else Picks(q, n - 1) + [Rest(q, n - 1)[Picked(Rest(q, n - 1))].victim]
  }

  /** The queue behind them. */
  function Rest(q: seq<Entry>, n: nat): (r: seq<Entry>)
    requires n <= |q|
    ensures |r| == |q| - n
  {
    if n == 0 then q else Shorter(Rest(q, n - 1))
  }

  ghost predicate InQueue(q: seq<Entry>, v: Victim)
  {
    exists i :: 0 <= i < |q| && q[i].victim == v
  }

  lemma {:induction false} RestInQueue(q: seq<Entry>, n: nat, i: nat)
    requires n <= |q| && i < |q| - n
    ensures InQueue(q, Rest(q, n)[i].victim)
  {
    if n > 0 {
      var r := Rest(q, n - 1);
      ShorterVictim(r, i);
      RestInQueue(q, n - 1, if i < Picked(r) then i else i + 1);
    }
  }

  lemma {:induction false} PicksInQueue(q: seq<Entry>, n: nat, v: Victim)
    requires n <= |q| && v in Picks(q, n)
    ensures InQueue(q, v)
  {
    var r := Rest(q, n - 1);
    PicksNext(q, n - 1);
    if v == r[Picked(r)].victim {
      RestInQueue(q, n - 1, Picked(r));
    } else {
      PicksInQueue(q, n - 1, v);
    }
  }

  /** How many pages the first k pages from b on cost. */
  ghost function Evictions(s: Space, b: nat, k: nat): (n: nat)
    requires |s.pgdir| == ENTRIES
  {
    Max(0, |Needed(s.pgdir, b, k)| - |s.free|)
  }

  /** The tables made, the frames taken and the pages evicted for them. */
  ghost predicate Spent(s0: Space, s: Space, b: nat, k: nat, victims: seq<Victim>)
    requires |s0.pgdir| == |s.pgdir| == ENTRIES
  {
    && (forall d :: 0 <= d < ENTRIES ==> (s.pgdir[d].Table? <==> s0.pgdir[d].Table? || d in Needed(s0.pgdir, b, k)))
    && |s.free| == Max(0, |s0.free| - |Needed(s0.pgdir, b, k)|) && |victims| == Evictions(s0, b, k)
    && s.slots == s0.slots - |victims| && QueueSpent(s0.queue, s.queue, victims)
  }

  /** The victims are the pages that second chance picks one after the other. */
  ghost predicate QueueSpent(q0: seq<Entry>, q: seq<Entry>, victims: seq<Victim>)
  {
    |victims| <= |q0| && victims == Picks(q0, |victims|) && q == Rest(q0, |victims|)
  }

  lemma QueuedIsPresent(s: Space, q: nat)
    requires Ok(s) && InQueue(s.queue, Mine(q))
    ensures q < PAGES && Lookup(s, q).present
  {
    var i :| 0 <= i < |s.queue| && s.queue[i].victim == Mine(q);
    assert VictimOk(s, s.queue[i].victim);
  }

  /** `mappages` leaves all entries outside its pages as they were if and only if none of the pages
      that second chance picks, one for each table without a free frame, is one of those; and it maps
      over no present page if and only if none of its own pages is picked. */
  lemma OthersUnchangedWhen(s0: Space, s: Space, b: nat, k: nat, f: nat, perm: nat, victims: seq<Victim>)
    requires Ok(s0) && Ok(s) && b < PAGES && MappedFrom(s0, s, b, k, f, perm, victims) && Spent(s0, s, b, k, victims)
    ensures Evictions(s0, b, k) <= |s0.queue|
    ensures (forall q: nat :: q < PAGES && Offset(b, q) >= k ==> Lookup(s, q) == Lookup(s0, q)) <==>
      (forall q: nat :: q < PAGES && Mine(q) in Picks(s0.queue, Evictions(s0, b, k)) ==> Offset(b, q) < k)
    ensures (forall q: nat :: q < PAGES && Offset(b, q) < k ==> !Lookup(s0, q).present) <==>
      (forall q: nat :: q < PAGES && Mine(q) in Picks(s0.queue, Evictions(s0, b, k)) ==> Offset(b, q) >= k)
  {
    assert victims == Picks(s0.queue, Evictions(s0, b, k));
    forall q: nat | q < PAGES && Mine(q) in victims
      ensures Lookup(s0, q).present
    {
      PicksInQueue(s0.queue, |victims|, Mine(q));
      QueuedIsPresent(s0, q);
    }
    PicksDecide(s0, s, b, k, f, perm, victims);
  }

  lemma PicksDecide(s0: Space, s: Space, b: nat, k: nat, f: nat, perm: nat, victims: seq<Victim>)
    requires Ok(s0) && Ok(s) && b < PAGES && MappedFrom(s0, s, b, k, f, perm, victims)
    requires forall q: nat :: q < PAGES && Mine(q) in victims ==> Lookup(s0, q).present
    ensures (forall q: nat :: q < PAGES && Offset(b, q) >= k ==> Lookup(s, q) == Lookup(s0, q)) <==>
      (forall q: nat :: q < PAGES && Mine(q) in victims ==> Offset(b, q) < k)
    ensures (forall q: nat :: q < PAGES && Offset(b, q) < k ==> !Lookup(s0, q).present) <==>
      (forall q: nat :: q < PAGES && Mine(q) in victims ==> Offset(b, q) >= k)
  {
    if q: nat :| q < PAGES && Mine(q) in victims && Offset(b, q) >= k {
      assert Lookup(s, q) != Lookup(s0, q);
    }
    if q: nat :| q < PAGES && Offset(b, q) < k && Lookup(s0, q).present {
      assert Lookup(s, q) == Expected(Lookup(s0, q), b, q, k, f, perm, Mine(q) in victims);
    }
  }

  // ----- one round -----

  lemma MapNext(s0: Space, s: Space, s': Space, b: nat, k: nat, f: nat, perm: nat, victims: seq<Victim>)
    requires Ok(s0) && Ok(s) && Ok(s') && b < PAGES && k < PAGES && MappedFrom(s0, s, b, k, f, perm, victims)
    requires !Lookup(s, PageAt(b, k)).present && Lookup(s', PageAt(b, k)) == Pte(true, (f + k) % PAGES, perm)
    requires forall q: nat :: q < PAGES && q != PageAt(b, k) ==> Lookup(s', q) == Lookup(s, q)
    ensures MappedFrom(s0, s', b, k + 1, f, perm, victims)
  {
    forall q: nat | q < PAGES
      ensures Lookup(s', q) == Expected(Lookup(s0, q), b, q, k + 1, f, perm, Mine(q) in victims)
      ensures Offset(b, q) < k + 1 ==> !Lookup(s0, q).present || Mine(q) in victims
    {
      OffsetIs(b, q, k);
      assert Lookup(s, q) == Expected(Lookup(s0, q), b, q, k, f, perm, Mine(q) in victims);
    }
  }

  /** A walk in the middle of `mappages` evicts none of the pages mapped so far: they are not queued. */
  lemma WalkKeepsMapped(s0: Space, s: Space, b: nat, k: nat, f: nat, perm: nat, victims: seq<Victim>, page: nat,
                        t: seq<Pte>)
    requires Ok(s0) && Ok(s) && b < PAGES && MappedFrom(s0, s, b, k, f, perm, victims) && Unqueued(s, b, k)
    requires page < PAGES && CanTake(s) && ZeroTable(t)
    ensures Ok(Walked(s, page, t))
    ensures MappedFrom(s0, Walked(s, page, t), b, k, f, perm, victims + Leaving(s, page))
  {
    WalkedLookups(s, page, t, 0);
    forall q: nat | q < PAGES
      ensures var gone := Mine(q) in victims + Leaving(s, page);
        Lookup(Walked(s, page, t), q) == Expected(Lookup(s0, q), b, q, k, f, perm, gone)
      ensures Offset(b, q) < k ==> !Lookup(s0, q).present || Mine(q) in victims + Leaving(s, page)
    {
      WalkedLookups(s, page, t, q);
      assert Lookup(s, q) == Expected(Lookup(s0, q), b, q, k, f, perm, Mine(q) in victims);
    }
  }

  /** The pages mapped so far are not in the queue. */
  ghost predicate Unqueued(s: Space, b: nat, k: nat)
    requires b < PAGES
  {
    forall i :: 0 <= i < |s.queue| && s.queue[i].victim.Mine? && s.queue[i].victim.page < PAGES ==>
      Offset(b, s.queue[i].victim.page) >= k
  }

  ghost predicate Unfold(k: nat) { true }

  /** k pages are mapped and tables were made for the first j.  The quantifier keeps the definition
      folded except where `Unfold` is mentioned. */
  ghost predicate Progress(s0: Space, s: Space, b: nat, k: nat, j: nat, f: nat, perm: nat, victims: seq<Victim>)
    requires Ok(s0) && Ok(s) && b < PAGES
  {
    forall i {:trigger Unfold(i)} :: i == k ==>
      MappedFrom(s0, s, b, i, f, perm, victims) && Spent(s0, s, b, j, victims) && Unqueued(s, b, i)
  }

  lemma ProgressIs(s0: Space, s: Space, b: nat, k: nat, j: nat, f: nat, perm: nat, victims: seq<Victim>)
    requires Ok(s0) && Ok(s) && b < PAGES
    ensures Progress(s0, s, b, k, j, f, perm, victims) <==>
      MappedFrom(s0, s, b, k, f, perm, victims) && Spent(s0, s, b, j, victims) && Unqueued(s, b, k)
  {
    assert Unfold(k);
  }

  lemma NoProgressYet(s: Space, b: nat, f: nat, perm: nat)
    requires Ok(s) && b < PAGES
    ensures Progress(s, s, b, 0, 0, f, perm, [])
  {
    ProgressIs(s, s, b, 0, 0, f, perm, []);
  }

  /** The frames that can be had: the free ones, and those of pages that can be evicted. */
  ghost function Room(s: Space): int { |s.free| + Min(|s.queue|, s.slots) }

  lemma NoRoomLeft(s0: Space, s: Space, b: nat, k: nat, f: nat, perm: nat, victims: seq<Victim>)
    requires Ok(s0) && Ok(s) && b < PAGES && Progress(s0, s, b, k, k, f, perm, victims)
    requires !CanTake(s) && s.pgdir[PageAt(b, k) / ENTRIES].NoTable?
    ensures |Needed(s0.pgdir, b, k + 1)| > Room(s0)
  {
    ProgressIs(s0, s, b, k, k, f, perm, victims);
    NeededGrows(s0, s, b, k, victims);
  }

  lemma NeededGrows(s0: Space, s: Space, b: nat, k: nat, victims: seq<Victim>)
    requires |s0.pgdir| == |s.pgdir| == ENTRIES && Spent(s0, s, b, k, victims)
    ensures var d, n, n' := PageAt(b, k) / ENTRIES, Needed(s0.pgdir, b, k), Needed(s0.pgdir, b, k + 1);
      if s.pgdir[d].Table? then n' == n else n' == n + {d} && |n'| == |n| + 1
  {
  }

  lemma WalkSpends(s0: Space, s: Space, b: nat, k: nat, victims: seq<Victim>, t: seq<Pte>)
    requires Ok(s0) && Ok(s) && Spent(s0, s, b, k, victims) && s.pgdir[PageAt(b, k) / ENTRIES].NoTable?
    requires CanTake(s) && ZeroTable(t)
    ensures Ok(Walked(s, PageAt(b, k), t))
    ensures Spent(s0, Walked(s, PageAt(b, k), t), b, k + 1, victims + Leaving(s, PageAt(b, k)))
  {
    WalkedLookups(s, PageAt(b, k), t, 0);
    WalkedParts(s, PageAt(b, k), t);
    SpendOne(s0, s, Walked(s, PageAt(b, k), t), b, k, victims, Leaving(s, PageAt(b, k)), TakenFrame(s));
  }

  lemma SpendOne(s0: Space, s: Space, s': Space, b: nat, k: nat, victims: seq<Victim>, leaving: seq<Victim>, f: nat)
    requires |s0.pgdir| == |s.pgdir| == ENTRIES && Spent(s0, s, b, k, victims)
    requires s.pgdir[PageAt(b, k) / ENTRIES].NoTable?
    requires s'.pgdir == s.pgdir[PageAt(b, k) / ENTRIES := Table(f)] 
    requires |s'.free| == Max(0, |s.free| - 1) && s'.slots == s.slots - |leaving| && (s.free == [] ==> s.queue != [])
    requires if s.free == [] then leaving == [Leaver(s)] && s'.queue == Shorter(s.queue)
             else leaving == [] && s'.queue == s.queue
    ensures Spent(s0, s', b, k + 1, victims + leaving)
  {
    NeededGrows(s0, s, b, k, victims);
    SpendTables(s0, s, s', b, k, victims, f);
    if s.free == [] {
      SpendQueue(s0.queue, s.queue, victims);
    }
  }

  lemma SpendQueue(q0: seq<Entry>, q: seq<Entry>, victims: seq<Victim>)
    requires QueueSpent(q0, q, victims) && q != []
    ensures QueueSpent(q0, Shorter(q), victims + [q[Picked(q)].victim])
  {
    PicksNext(q0, |victims|);
  }

  lemma SpendTables(s0: Space, s: Space, s': Space, b: nat, k: nat, victims: seq<Victim>, f: nat)
    requires |s0.pgdir| == |s.pgdir| == ENTRIES && Spent(s0, s, b, k, victims)
    requires s.pgdir[PageAt(b, k) / ENTRIES].NoTable?
    requires s'.pgdir == s.pgdir[PageAt(b, k) / ENTRIES := Table(f)]
    ensures forall d :: 0 <= d < ENTRIES ==>
      (s'.pgdir[d].Table? <==> s0.pgdir[d].Table? || d in Needed(s0.pgdir, b, k + 1))
  {
  }

  lemma PicksNext(q: seq<Entry>, n: nat)
    requires n < |q|
    ensures var r := Rest(q, n);
      Picks(q, n + 1) == Picks(q, n) + [r[Picked(r)].victim] && Rest(q, n + 1) == Shorter(r)
  {
  }

  lemma WalkedParts(s: Space, page: nat, t: seq<Pte>)
    requires Ok(s) && page < PAGES && s.pgdir[page / ENTRIES].NoTable? && CanTake(s)
    ensures var s' := Walked(s, page, t);
      && s'.pgdir == s.pgdir[page / ENTRIES := Table(TakenFrame(s))]
      && |s'.free| == Max(0, |s.free| - 1) && s'.slots == s.slots - |Leaving(s, page)|
      && s'.queue == if s.free == [] then Shorter(s.queue) else s.queue
  {
    TakenDir(s);
  }

  lemma WalkUnqueued(s: Space, b: nat, k: nat, t: seq<Pte>)
    requires Ok(s) && b < PAGES && Unqueued(s, b, k) && s.pgdir[PageAt(b, k) / ENTRIES].NoTable?
    requires CanTake(s) && ZeroTable(t)
    ensures Unqueued(Walked(s, PageAt(b, k), t), b, k)
  {
    var s' := Walked(s, PageAt(b, k), t);
    WalkedParts(s, PageAt(b, k), t);
    forall i: nat | i < |s'.queue| && s'.queue[i].victim.Mine? && s'.queue[i].victim.page < PAGES
      ensures Offset(b, s'.queue[i].victim.page) >= k
    {
      if s.free == [] {
        ShorterVictim(s.queue, i);
      }
    }
  }

  lemma WalkProgress(s0: Space, s: Space, b: nat, k: nat, f: nat, perm: nat, victims: seq<Victim>, t: seq<Pte>)
    requires Ok(s0) && Ok(s) && b < PAGES && Progress(s0, s, b, k, k, f, perm, victims)
    requires s.pgdir[PageAt(b, k) / ENTRIES].NoTable? && CanTake(s) && ZeroTable(t)
    ensures var s' := Walked(s, PageAt(b, k), t);
      var victims' := victims + Leaving(s, PageAt(b, k));
      Ok(s') && Progress(s0, s', b, k, k + 1, f, perm, victims') && !Lookup(s', PageAt(b, k)).present
  {
    ProgressIs(s0, s, b, k, k, f, perm, victims);
    WalkedLookups(s, PageAt(b, k), t, PageAt(b, k));
    ProgressIs(s0, Walked(s, PageAt(b, k), t), b, k, k + 1, f, perm, victims + Leaving(s, PageAt(b, k)));
    WalkKeepsMapped(s0, s, b, k, f, perm, victims, PageAt(b, k), t);
    WalkSpends(s0, s, b, k, victims, t);
    WalkUnqueued(s, b, k, t);
  }

  lemma TableFound(s0: Space, s: Space, b: nat, k: nat, f: nat, perm: nat, victims: seq<Victim>)
    requires Ok(s0) && Ok(s) && b < PAGES && Progress(s0, s, b, k, k, f, perm, victims)
    requires s.pgdir[PageAt(b, k) / ENTRIES].Table?
    ensures Progress(s0, s, b, k, k + 1, f, perm, victims)
  {
    ProgressIs(s0, s, b, k, k, f, perm, victims);
    ProgressIs(s0, s, b, k, k + 1, f, perm, victims);
    NothingSpent(s0, s, b, k, victims);
  }

  lemma NothingSpent(s0: Space, s: Space, b: nat, k: nat, victims: seq<Victim>)
    requires |s0.pgdir| == |s.pgdir| == ENTRIES && Spent(s0, s, b, k, victims)
    requires s.pgdir[PageAt(b, k) / ENTRIES].Table?
    ensures Spent(s0, s, b, k + 1, victims)
  {
    NeededGrows(s0, s, b, k, victims);
  }

  lemma DuplicateWas(s0: Space, s: Space, b: nat, k: nat, f: nat, perm: nat, victims: seq<Victim>)
    requires Ok(s0) && Ok(s) && b < PAGES && k < PAGES && Progress(s0, s, b, k, k, f, perm, victims)
    requires Lookup(s, PageAt(b, k)).present
    ensures Lookup(s0, PageAt(b, k)).present && Mine(PageAt(b, k)) !in victims
  {
    ProgressIs(s0, s, b, k, k, f, perm, victims);
    OffsetIs(b, PageAt(b, k), k);
  }

  lemma EnterProgress(s0: Space, s: Space, b: nat, k: nat, f: nat, perm: nat, victims: seq<Victim>)
    requires Ok(s0) && Ok(s) && b < PAGES && k < PAGES
    requires s.pgdir[PageAt(b, k) / ENTRIES].Table? && !Lookup(s, PageAt(b, k)).present
    requires Progress(s0, s, b, k, k + 1, f, perm, victims)
    ensures var s' := Entered(s, PageAt(b, k), Pte(true, (f + k) % PAGES, perm));
      Ok(s') && Progress(s0, s', b, k + 1, k + 1, f, perm, victims)
  {
    ProgressIs(s0, s, b, k, k + 1, f, perm, victims);
    var page, pte := PageAt(b, k), Pte(true, (f + k) % PAGES, perm);
    var s' := Entered(s, page, pte);
    EnteredOk(s, page, pte);
    forall q: nat | q < PAGES
      ensures Lookup(s', q) == if q == page then pte else Lookup(s, q)
    {
      SetEntry(s, page, pte, q);
    }
    MapNext(s0, s, s', b, k, f, perm, victims);
    EnterUnqueued(s, b, k);
    assert Spent(s0, s', b, k + 1, victims);
    ProgressIs(s0, s', b, k + 1, k + 1, f, perm, victims);
  }

  /** The page about to be mapped is not queued, since it is not present. */
  lemma EnterUnqueued(s: Space, b: nat, k: nat)
    requires Ok(s) && b < PAGES && k < PAGES && Unqueued(s, b, k) && !Lookup(s, PageAt(b, k)).present
    ensures Unqueued(s, b, k + 1)
  {
    forall i: nat | i < |s.queue| && s.queue[i].victim.Mine? && s.queue[i].victim.page < PAGES
      ensures Offset(b, s.queue[i].victim.page) >= k + 1
    {
      assert VictimOk(s, s.queue[i].victim);
      OffsetIs(b, s.queue[i].victim.page, k);
    }
  }

  // ----- the loop's 32-bit arithmetic -----

  /** The address of page x, modulo the address space. */
  function Address(x: nat): (a: nat)
    ensures a < SPACE && a / PGSIZE == x % PAGES
  {
    x % PAGES * PGSIZE
  }

  lemma NextAddress(x: nat)
    ensures (Address(x) + PGSIZE) % SPACE == Address(x + 1)
  {
  }

  lemma RoundDown(a: nat)
    requires a < SPACE
    ensures a - a % PGSIZE == Address(a / PGSIZE)
  {
  }

  /** The test that ends the loop succeeds in the last round and not before. */
  lemma LastRound(va: nat, size: nat, k: nat)
    requires va < SPACE && k < Count(va, size)
    ensures Address(Bottom(va) + k) == Address(Top(va, size)) <==> k + 1 == Count(va, size)
  {
    OffsetIs(Bottom(va), Top(va, size), k);
  }

  datatype MapResult = Done | Duplicate | Exhausted

  class AddressSpace {
    var pgdir: seq<Pde>
    var tables: map<nat, seq<Pte>>
    var free: seq<nat>
    var queue: seq<Entry>
    var slots: nat

    ghost function View(): (s: Space)
      reads this
    {
      Space(pgdir, tables, free, queue, slots)
    }

    ghost predicate Valid()
      reads this
    {
      Ok(View())
    }

    /** `sel_page`: second chance, clearing the bits it looks at. */
    method SelPage() returns (v: nat)
      requires queue != []
      modifies this`queue
      ensures v == Picked(old(queue)) && queue == Cleared(old(queue), FirstClear(old(queue), 0))
    {
      ghost var q := queue;
      v := 0;
      while v < |queue| && queue[v].accessed
        invariant v <= |q| && FirstClear(q, v) == FirstClear(q, 0) && queue == Cleared(q, v)
      {
        queue := queue[v := Entry(queue[v].victim, false)];
        v := v + 1;
      }
      assert v == FirstClear(q, 0);
      if v == |queue| {
        v := 0;
      }
    }

    /** `page_out`, as far as the tables are concerned. */
    method PageOut() returns (f: nat)
      requires Valid() && queue != [] && slots > 0 && free == []
      modifies this`tables, this`queue, this`slots
      ensures View() == Evicted(old(View())) && f == FrameOf(old(View()), Leaver(old(View())))
    {
      EvictedParts(View());
      assert VictimOk(View(), Leaver(View()));
      var v := SelPage();
      assert queue[v].victim == Leaver(old(View()));
      match queue[v].victim {
        case Other(frame) => f := frame;
        case Mine(page) =>
          var t := pgdir[page / ENTRIES].frame;
          var pte := tables[t][page % ENTRIES];
          f := pte.frame;
          tables := tables[t := tables[t][page % ENTRIES := pte.(present := false)]];
      }
      queue := queue[..v] + queue[v + 1..];
      slots := slots - 1;
    }

    /** `kalloc`: panics if and only if nothing is free and nothing can be evicted. */
    method Kalloc() returns (panicked: bool, f: nat)
      requires Valid()
      modifies this`tables, this`free, this`queue, this`slots
      ensures panicked <==> !CanTake(old(View()))
      ensures panicked ==> View() == old(View())
      ensures !panicked ==> View() == Taken(old(View())) && f == TakenFrame(old(View()))
    {
      panicked, f := false, 0;
      if free == [] {
        if queue == [] || slots == 0 {
          return true, 0;
        }
        f := PageOut();
      } else {
        f := free[0];
        free := free[1..];
      }
    }

    /** `walkpgdir`: the table that holds the entry of a page, allocated if asked for. */
    method Walk(page: nat, alloc: bool, zero: seq<Pte>) returns (panicked: bool, found: bool, t: nat)
      requires Valid() && page < PAGES && ZeroTable(zero)
      modifies this
      ensures Valid() && (panicked <==> alloc && old(pgdir)[page / ENTRIES].NoTable? && !CanTake(old(View())))
      ensures found <==> old(pgdir)[page / ENTRIES].Table? || (alloc && !panicked)
      ensures !found || old(pgdir)[page / ENTRIES].Table? ==> View() == old(View())
      ensures found ==> pgdir[page / ENTRIES] == Table(t)
      ensures found && old(pgdir)[page / ENTRIES].NoTable? ==>
        CanTake(old(View())) && View() == Walked(old(View()), page, zero)
    {
      panicked, t := false, 0;
      var d := page / ENTRIES;
      found := pgdir[d].Table?;
      if found {
        t := pgdir[d].frame;
      } else if alloc {
        panicked, t := Kalloc();
        if !panicked {
          WalkedLookups(old(View()), page, zero, 0);
          tables := tables[t := zero];
          pgdir := pgdir[d := Table(t)];
          found := true;
        }
      }
    }

    /** One round of `mappages`. */
    method MapRound(ghost s0: Space, ghost b: nat, ghost k: nat, ghost f: nat, page: nat, frame: nat, perm: nat,
                    zero: seq<Pte>, ghost victims: seq<Victim>)
      returns (result: MapResult, ghost victims': seq<Victim>)
      requires Valid() && Ok(s0) && b < PAGES && k < PAGES && ZeroTable(zero)
      requires page == PageAt(b, k) && frame == (f + k) % PAGES
      requires Progress(s0, View(), b, k, k, f, perm, victims)
      modifies this
      ensures Valid()
      ensures var k' := if result.Done? then k + 1 else k; Progress(s0, View(), b, k', k', f, perm, victims')
      ensures result.Duplicate? ==> Lookup(s0, page).present && Mine(page) !in victims'
      ensures result.Exhausted? ==> |Needed(s0.pgdir, b, k + 1)| > Room(s0)
    {
      ghost var s := View();
      var panicked, found, t;
      panicked, found, t := Walk(page, true, zero);
      if panicked {
        NoRoomLeft(s0, s, b, k, f, perm, victims);
        return Exhausted, victims;
      }
      victims' := victims;
      if s.pgdir[page / ENTRIES].NoTable? {
        WalkProgress(s0, s, b, k, f, perm, victims, zero);
        victims' := victims + Leaving(s, page);
      } else {
        TableFound(s0, s, b, k, f, perm, victims);
      }
      if tables[t][page % ENTRIES].present {
        DuplicateWas(s0, s, b, k, f, perm, victims);
        return Duplicate, victims';
      }
      EnterProgress(s0, View(), b, k, f, perm, victims');
      tables := tables[t := tables[t][page % ENTRIES := Pte(true, frame, perm)]];
      result := Done;
    }

    /** `mappages`: k pages from the one of va on map to consecutive frames, the victims left memory
        to make room for tables, and nothing else changes: all pages of the range, or those before a
        page found mapped or before nothing could be evicted any more. */
    method MapPages(va: nat, size: nat, pa: nat, perm: nat)
      returns (result: MapResult, ghost k: nat, ghost victims: seq<Victim>)
      requires Valid() && va < SPACE && pa < SPACE && pa % PGSIZE == 0
      modifies this
      ensures Valid() && k <= Count(va, size) && (result.Done? <==> k == Count(va, size))
      ensures MappedFrom(old(View()), View(), Bottom(va), k, pa / PGSIZE, perm, victims)
      ensures Spent(old(View()), View(), Bottom(va), k, victims)
      ensures result.Exhausted? ==> |Needed(old(pgdir), Bottom(va), k + 1)| > Room(old(View()))
      ensures result.Duplicate? ==> old(Lookup(View(), PageAt(Bottom(va), k))).present
      ensures result.Duplicate? ==> Mine(PageAt(Bottom(va), k)) !in victims
    {
      ghost var b, n, f, s0 := Bottom(va), Count(va, size), pa / PGSIZE, View();
      var zero := seq(ENTRIES, _ => Pte(false, 0, 0));
      var last := (va + size - 1) % SPACE;
      var bottom, top, addr := va - va % PGSIZE, last - last % PGSIZE, pa;
      RoundDown(va);
      RoundDown(last);
      RoundDown(pa);
      k, victims := 0, [];
      NoProgressYet(s0, b, f, perm);
      while true
        invariant Valid() && k < n && bottom == Address(b + k) && addr == Address(f + k)
        invariant Progress(s0, View(), b, k, k, f, perm, victims)
        decreases n - k
      {
        LastRound(va, size, k);
        result, victims := MapRound(s0, b, k, f, bottom / PGSIZE, addr / PGSIZE, perm, zero, victims);
        if result.Done? {
          k := k + 1;
        }
        if !result.Done? || bottom == top {
          ProgressIs(s0, View(), b, k, k, f, perm, victims);
          return;
        }
        NextAddress(b + k - 1);
        NextAddress(f + k - 1);
        bottom := (bottom + PGSIZE) % SPACE;
        addr := (addr + PGSIZE) % SPACE;
      }
    }
  }
}
