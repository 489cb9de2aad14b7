/** `malloc`, `free` and `morecore` of src/umalloc.c, updating headers and `freep` in place. */
module Malloc {
  import opened Common
  import opened FreeList
  import Sums

  const HEADER_BYTES: nat := 8
  const MIN_CORE: nat := 4096

  /** `nunits`, computed in 32-bit unsigned arithmetic. */
  function Units(nbytes: nat): (n: nat)
    ensures 1 <= n
  {
    (nbytes + HEADER_BYTES - 1) % UINT / HEADER_BYTES + 1
  }

  function CoreUnits(nunits: nat): (n: nat)
    ensures nunits <= n && MIN_CORE <= n
  {
    if nunits < MIN_CORE then MIN_CORE else nunits
  }

  /** The payload holds nbytes exactly when the rounding does not wrap around. */
  lemma PayloadFits(nbytes: nat)
    requires nbytes < UINT
    ensures nbytes <= (Units(nbytes) - 1) * HEADER_BYTES <==> nbytes + HEADER_BYTES - 1 < UINT
  {
  }

  /** Units are eight bytes, one of them is the header, and not a unit too many is asked for; fresh
      core comes in pieces of at least 4096 units. */
  lemma UnitsAre(nbytes: nat)
    requires nbytes + 7 < 0x1_0000_0000
    ensures 8 * (Units(nbytes) - 1) - 8 < nbytes <= 8 * (Units(nbytes) - 1)
    ensures CoreUnits(Units(nbytes)) == if Units(nbytes) < 4096 then 4096 else Units(nbytes)
  {
  }

  /** g lies at or after p on the lap that starts behind freep and ends at freep. */
  predicate Ahead(freep: nat, p: nat, g: nat)
  {
    if freep < p then p <= g || g <= freep else p <= g <= freep
  }

  // ----- what the calls do to the heap -----

  /** Memory together with the blocks that explain it; `obtained` counts the units that came
      from `sbrk`. */
  datatype State = State(mem: Memory, freep: nat, blocks: map<nat, nat>, fs: set<nat>, brk: nat, obtained: int)

  /** The heap invariant, with `freep` on the ring. */
  ghost predicate InOrder(h: State)
  {
    Inv(h.mem, h.blocks, h.fs, h.brk) && h.freep in h.fs
  }

  /** Release: `free` has found that bp belongs behind p.  Grow: `sbrk` delivered n units at hp.
      Take: `malloc` found that p, behind prev, is large enough for n units.  Store: the program
      writes v into unit u of its block a. */
  datatype Event =
    | Release(p: nat, bp: nat)
    | Grow(hp: nat, n: nat)
    | Take(prev: nat, p: nat, n: nat)
    | Store(a: nat, u: nat, v: Header)

  ghost predicate Enabled(h: State, e: Event)
  {
    match e
    case Release(p, bp) =>
      && bp in h.blocks && bp !in h.fs && Precedes(h.fs, p, bp)
      && p < |h.mem| && bp < |h.mem| && h.mem[p].ptr < |h.mem| && p in h.blocks && h.mem[p].ptr in h.blocks
    case Grow(hp, n) => h.brk <= hp && 1 <= n && hp + n <= |h.mem| && hp !in h.blocks
    case Take(prev, p, n) =>
      && prev in h.fs && prev < |h.mem| && h.mem[prev].ptr == p && p in h.fs && p in h.blocks
      && p < |h.mem| && 1 <= n <= h.mem[p].size == h.blocks[p]
      && p + h.mem[p].size - n < |h.mem| && (n < h.mem[p].size ==> p + h.mem[p].size - n !in h.blocks)
    case Store(a, u, v) => a in h.blocks && a !in h.fs && a < u < a + h.blocks[a] && u < |h.mem|
  }

  ghost function Step(h: State, e: Event): State
    requires Enabled(h, e)
  {
    match e
    case Release(p, bp) =>
      h.(mem := Freed(h.mem, p, bp), freep := p,
         blocks := MergedBlocks(h.blocks, p, bp, h.mem[p].ptr),
         fs := MergedFree(h.blocks, h.fs, p, bp, h.mem[p].ptr))
    case Grow(hp, n) =>
      h.(mem := h.mem[hp := h.mem[hp].(size := n)], blocks := h.blocks[hp := n],
         brk := hp + n, obtained := h.obtained + n)
    case Take(prev, p, n) =>
      if h.blocks[p] == n
      then h.(mem := Unlink(h.mem, prev, p), freep := prev, fs := h.fs - {p})
      else h.(mem := Split(h.mem, p, n), freep := prev,
              blocks := h.blocks[p := h.blocks[p] - n][p + h.blocks[p] - n := n])
    case Store(a, u, v) => h.(mem := h.mem[u := v])
  }

  /** What the program writes into its blocks cannot hurt the heap. */
  lemma StoreKeepsOrder(h: State, a: nat, u: nat, v: Header)
    requires InOrder(h) && Enabled(h, Store(a, u, v))
    ensures InOrder(Step(h, Store(a, u, v)))
  {
    InsideIsNoBlock(h.mem, h.blocks, h.brk, a, u);
    StoreKeepsTiled(h.mem, h.blocks, h.brk, u, v);
    StoreKeepsRing(h.mem, h.blocks, h.fs, u, v);
  }

  lemma InsideIsNoBlock(mem: Memory, blocks: map<nat, nat>, brk: nat, a: nat, u: nat)
    requires Tiled(mem, blocks, brk) && a in blocks && a < u < a + blocks[a]
    ensures u !in blocks
  {
  }

  lemma StoreKeepsTiled(mem: Memory, blocks: map<nat, nat>, brk: nat, u: nat, v: Header)
    requires Tiled(mem, blocks, brk) && u < |mem| && u !in blocks
    ensures Tiled(mem[u := v], blocks, brk)
  {
  }

  lemma StoreKeepsRing(mem: Memory, blocks: map<nat, nat>, fs: set<nat>, u: nat, v: Header)
    requires Ring(mem, fs) && fs <= blocks.Keys && u < |mem| && u !in blocks
    ensures Ring(mem[u := v], fs)
  {
    forall f | f in fs
      ensures Linked(mem[u := v], fs, f)
    {
      assert Linked(mem, fs, f);
    }
  }

  lemma ReleaseKeepsOrder(h: State, p: nat, bp: nat)
    requires InOrder(h) && Enabled(h, Release(p, bp))
    ensures InOrder(Step(h, Release(p, bp)))
  {
    FreeKeepsHalf(h.mem, h.blocks, h.fs, h.brk, p, bp);
    assert Linked(h.mem, h.fs, p);
    MergedIsCoalesced(h.mem, h.blocks, h.fs, h.brk, p, bp);
  }

  lemma TakeWholeKeepsOrder(h: State, prev: nat, p: nat, n: nat)
    requires InOrder(h) && Enabled(h, Take(prev, p, n)) && h.blocks[p] == n
    ensures InOrder(Step(h, Take(prev, p, n)))
  {
    assert Linked(h.mem, h.fs, prev);
    UnlinkKeepsInv(h.mem, h.blocks, h.fs, h.brk, prev, p);
  }

  lemma TakeTailStep(h: State, prev: nat, p: nat, n: nat)
    requires Enabled(h, Take(prev, p, n)) && n < h.blocks[p]
    ensures var h' := Step(h, Take(prev, p, n));
      && h'.mem == Split(h.mem, p, n) && h'.blocks == h.blocks[p := h.blocks[p] - n][p + h.blocks[p] - n := n]
      && h'.fs == h.fs && h'.brk == h.brk && h'.freep in h.fs
  {
  }

  lemma StaysInOrder(h: State, h': State, p: nat, n: nat)
    requires InOrder(h) && p in h.fs && p in h.blocks && p < |h.mem| && 1 <= n < h.blocks[p] == h.mem[p].size
    requires p + h.mem[p].size - n < |h.mem| && h'.mem == Split(h.mem, p, n)
    requires h'.blocks == h.blocks[p := h.blocks[p] - n][p + h.blocks[p] - n := n]
    requires h'.fs == h.fs && h'.brk == h.brk && h'.freep in h.fs
    ensures InOrder(h')
  {
    SplitKeepsInv(h.mem, h.blocks, h.fs, h.brk, p, n);
  }

  lemma TakeTailKeepsOrder(h: State, prev: nat, p: nat, n: nat)
    requires InOrder(h) && Enabled(h, Take(prev, p, n)) && n < h.blocks[p]
    ensures InOrder(Step(h, Take(prev, p, n)))
  {
    TakeTailStep(h, prev, p, n);
    StaysInOrder(h, Step(h, Take(prev, p, n)), p, n);
  }

  /** An empty heap: `base` alone on the ring. */
  ghost predicate Empty(h: State)
  {
    && 1 <= |h.mem| && h.mem[0] == Header(0, 0)
    && h == State(h.mem, 0, map[0 := 0], {0}, 1, 0)
  }

  /** A sequence of heap events, latest outermost. */
  datatype Run = Start(h: State) | Then(prev: Run, e: Event, h: State)

  ghost predicate IsRun(r: Run)
  {
    match r
    case Start(h) => Empty(h)
    case Then(prev, e, h) => IsRun(prev) && Enabled(prev.h, e) && h == Step(prev.h, e)
  }

  /** The heap invariant over every sequence of calls. */
  lemma {:induction false} RunKeepsOrder(r: Run)
    requires IsRun(r)
    ensures InOrder(r.h)
  {
    match r
    case Start(h) => assert Linked(h.mem, h.fs, 0);
    case Then(prev, e, h) =>
      RunKeepsOrder(prev);
      match e
      case Release(p, bp) => ReleaseKeepsOrder(prev.h, p, bp);
      case Grow(hp, n) => GrowKeepsInv(prev.h.mem, prev.h.blocks, prev.h.fs, prev.h.brk, hp, n);
      case Take(pr, p, n) =>
        if prev.h.blocks[p] == n {
          TakeWholeKeepsOrder(prev.h, pr, p, n);
        } else {
          TakeTailKeepsOrder(prev.h, pr, p, n);
        }
      case Store(a, u, v) => StoreKeepsOrder(prev.h, a, u, v);
  }

  // ----- conservation -----

  lemma AbsorbKeepsSum(blocks: map<nat, nat>, f: nat, nx: nat)
    requires f in blocks && nx in blocks && f != nx
    ensures Sums.Sum(Absorb(blocks, f, nx)) == Sums.Sum(blocks)
  {
    Sums.SumDrop(blocks, nx);
    Sums.SumSet(blocks - {nx}, f, blocks[f] + blocks[nx]);
  }

  /** Merging moves units between blocks but neither makes nor loses any. */
  lemma MergedSum(blocks: map<nat, nat>, p: nat, bp: nat, nx: nat)
    requires p in blocks && bp in blocks && p < bp && nx in blocks
    ensures Sums.Sum(MergedBlocks(blocks, p, bp, nx)) == Sums.Sum(blocks)
  {
    var up := if bp + blocks[bp] == nx && nx != bp then Absorb(blocks, bp, nx) else blocks;
    if bp + blocks[bp] == nx && nx != bp {
      AbsorbKeepsSum(blocks, bp, nx);
    }
    if p + blocks[p] == bp && p in up && bp in up {
      AbsorbKeepsSum(up, p, bp);
    }
  }

  lemma {:induction false} RunSum(r: Run)
    requires IsRun(r)
    ensures Sums.Sum(r.h.blocks) == r.h.obtained
  {
    match r
    case Start(h) =>
      Sums.SumAdd(map[], 0, 0);
      assert map[][0 := 0] == h.blocks;
    case Then(prev, e, _) =>
      RunSum(prev);
      var h := prev.h;
      match e
      case Release(p, bp) => MergedSum(h.blocks, p, bp, h.mem[p].ptr);
      case Grow(hp, n) => Sums.SumAdd(h.blocks, hp, n);
      case Take(_, p, n) =>
        if n < h.blocks[p] {
          Sums.SumSet(h.blocks, p, h.blocks[p] - n);
          Sums.SumAdd(h.blocks[p := h.blocks[p] - n], p + h.blocks[p] - n, n);
        }
      case Store(_, _, _) =>
  }

  /** Over every sequence of calls, free plus live units are the units obtained from `sbrk`. */
  lemma RunConserves(r: Run)
    requires IsRun(r)
    ensures Sums.Sum(r.h.blocks - r.h.fs) + Sums.Sum(r.h.blocks - (r.h.blocks.Keys - r.h.fs)) == r.h.obtained
  {
    RunSum(r);
    Sums.SumPartition(r.h.blocks, r.h.fs);
  }

  // ----- facts the methods ask of a run -----

  lemma LiveFacts(r: Run, bp: nat)
    requires IsRun(r) && bp in r.h.blocks && bp !in r.h.fs
    ensures Ring(r.h.mem, r.h.fs) && r.h.freep in r.h.fs && 1 <= bp < |r.h.mem|
  {
    RunKeepsOrder(r);
  }

  lemma LiveAfterRelease(blocks: map<nat, nat>, fs: set<nat>, p: nat, bp: nat, nx: nat)
    requires p in blocks && bp in blocks && nx in blocks && p in fs && nx in fs && bp !in fs
    requires p < bp && (nx == 0 || bp < nx) && 1 <= blocks[bp]
    ensures MergedBlocks(blocks, p, bp, nx) - MergedFree(blocks, fs, p, bp, nx) == blocks - fs - {bp}
    ensures var f := if p + blocks[p] == bp then p else bp;
      && f in MergedFree(blocks, fs, p, bp, nx) && f in MergedBlocks(blocks, p, bp, nx)
      && blocks[bp] <= MergedBlocks(blocks, p, bp, nx)[f]
  {
  }

  lemma LiveAfterTake(h: State, prev: nat, p: nat, n: nat)
    requires Enabled(h, Take(prev, p, n)) && h.fs <= h.blocks.Keys
    ensures var q := p + h.mem[p].size - n;
      q !in Live(h) && Live(Step(h, Take(prev, p, n))) == Live(h)[q := n]
  {
  }

  /** f is the free block that contains bp afterwards. */
  lemma ReleaseRun(r: Run, p: nat, bp: nat) returns (r': Run, f: nat)
    requires IsRun(r) && bp in r.h.blocks && bp !in r.h.fs && Precedes(r.h.fs, p, bp)
    ensures Enabled(r.h, Release(p, bp))
    ensures r' == Then(r, Release(p, bp), Step(r.h, Release(p, bp))) && IsRun(r')
    ensures PayloadKept(r.h.mem, r'.h.mem, Live(r.h))
    ensures f in r'.h.fs && f in r'.h.blocks && r.h.blocks[bp] <= r'.h.blocks[f]
    ensures Live(r'.h) == Live(r.h) - {bp}
  {
    RunKeepsOrder(r);
    FreeFacts(r.h.mem, r.h.blocks, r.h.fs, r.h.brk, p, bp);
    FreeKeepsPayload(r.h.mem, r.h.blocks, r.h.fs, r.h.brk, p, bp);
    LiveAfterRelease(r.h.blocks, r.h.fs, p, bp, r.h.mem[p].ptr);
    r' := Then(r, Release(p, bp), Step(r.h, Release(p, bp)));
    f := if p + r.h.blocks[p] == bp then p else bp;
  }

  lemma GrowRun(r: Run, hp: nat, n: nat) returns (r': Run)
    requires IsRun(r) && r.h.brk <= hp && 1 <= n && hp + n <= |r.h.mem|
    ensures Enabled(r.h, Grow(hp, n)) && hp !in r.h.fs
    ensures r' == Then(r, Grow(hp, n), Step(r.h, Grow(hp, n))) && IsRun(r')
    ensures PayloadKept(r.h.mem, r'.h.mem, Live(r.h))
    ensures Live(r'.h) == Live(r.h)[hp := n]
  {
    RunKeepsOrder(r);
    GrowKeepsTiled(r.h.mem, r.h.blocks, r.h.brk, hp, n);
    GrowKeepsPayload(r.h.mem, r.h.blocks, r.h.fs, r.h.brk, hp, n);
    r' := Then(r, Grow(hp, n), Step(r.h, Grow(hp, n)));
  }

  lemma TakeFacts(r: Run, prev: nat, p: nat, n: nat)
    requires IsRun(r) && prev in r.h.fs && p in r.h.fs
    requires prev < |r.h.mem| && p < |r.h.mem| && r.h.mem[prev].ptr == p && 1 <= n <= r.h.mem[p].size
    ensures Enabled(r.h, Take(prev, p, n)) && r.h.fs <= r.h.blocks.Keys
    ensures PayloadKept(r.h.mem, Step(r.h, Take(prev, p, n)).mem, Live(r.h))
  {
    RunKeepsOrder(r);
    if n < r.h.blocks[p] {
      SplitKeepsTiled(r.h.mem, r.h.blocks, r.h.brk, p, n);
      SplitKeepsPayload(r.h.mem, r.h.blocks, r.h.fs, r.h.brk, p, n);
    }
  }

  lemma TakeRun(r: Run, prev: nat, p: nat, n: nat) returns (r': Run)
    requires IsRun(r) && prev in r.h.fs && p in r.h.fs
    requires prev < |r.h.mem| && p < |r.h.mem| && r.h.mem[prev].ptr == p && 1 <= n <= r.h.mem[p].size
    ensures Enabled(r.h, Take(prev, p, n)) && r.h.fs <= r.h.blocks.Keys
    ensures r' == Then(r, Take(prev, p, n), Step(r.h, Take(prev, p, n))) && IsRun(r')
    ensures PayloadKept(r.h.mem, r'.h.mem, Live(r.h))
  {
    TakeFacts(r, prev, p, n);
    r' := Then(r, Take(prev, p, n), Step(r.h, Take(prev, p, n)));
  }

  // ----- memory for the program -----

  /** What the program last stored in unit u, unless its block was freed since. */
  ghost function LastStored(r: Run, u: nat): Option<Header>
  {
    match r
    case Start(_) => None
    case Then(prev, Store(_, w, v), _) => if w == u then Some(v) else LastStored(prev, u)
    case Then(prev, Release(_, bp), _) =>
      if bp in prev.h.blocks && bp < u < bp + prev.h.blocks[bp] then None else LastStored(prev, u)
    case Then(prev, _, _) => LastStored(prev, u)
  }

  lemma StepKeepsBlock(r: Run, e: Event, a: nat)
    requires IsRun(r) && Enabled(r.h, e) && a in Live(r.h) && !(e.Release? && e.bp == a)
    ensures a in Live(Step(r.h, e)) && Live(Step(r.h, e))[a] == Live(r.h)[a]
    ensures !e.Store? ==> PayloadKept(r.h.mem, Step(r.h, e).mem, Live(r.h))
  {
    match e
    case Release(p, bp) => var r', f := ReleaseRun(r, p, bp);
    case Grow(hp, n) => var r' := GrowRun(r, hp, n);
    case Take(prev, p, n) =>
      TakeFacts(r, prev, p, n);
      LiveAfterTake(r.h, prev, p, n);
    case Store(_, _, _) =>
  }

  /** Over every sequence of calls and stores, the program finds in its blocks what it put there. */
  lemma {:induction false} BlocksKeepTheirContents(r: Run, u: nat) returns (a: nat)
    requires IsRun(r) && LastStored(r, u).Some?
    ensures a in Live(r.h) && a < u < a + Live(r.h)[a] && u < |r.h.mem| && r.h.mem[u] == LastStored(r, u).value
  {
    if r.e.Store? && r.e.u == u {
      a := r.e.a;
    } else {
      a := BlocksKeepTheirContents(r.prev, u);
      StepKeepsBlock(r.prev, r.e, a);
    }
  }

  lemma LiveRestored(live: map<nat, nat>, hp: nat, n: nat)
    requires hp !in live
    ensures live[hp := n] - {hp} == live
  {
  }

  lemma PayloadChain(m0: Memory, m1: Memory, m2: Memory, live: map<nat, nat>, live': map<nat, nat>)
    requires PayloadKept(m0, m1, live) && PayloadKept(m1, m2, live')
    requires forall a :: a in live ==> a in live' && live'[a] == live[a]
    ensures PayloadKept(m0, m2, live)
  {
  }

  /** The live blocks with their sizes. */
  function Live(h: State): (m: map<nat, nat>)
  {
    h.blocks - h.fs
  }

  /** Every free block of at least n units still lies ahead of p on the current lap. */
  ghost predicate FitsAhead(h: State, p: nat, n: nat)
  {
    forall g :: g in h.fs && g in h.blocks && n <= h.blocks[g] ==> Ahead(h.freep, p, g)
  }

  /** No free block is large enough. */
  ghost predicate NothingFits(h: State, n: nat)
  {
    forall f :: f in h.fs && f in h.blocks ==> h.blocks[f] < n
  }

  lemma NextAhead(mem: Memory, fs: set<nat>, freep: nat, p: nat, g: nat)
    requires Linked(mem, fs, p) && freep in fs && g in fs
    requires p != freep && g != p && Ahead(freep, p, g)
    ensures Ahead(freep, mem[p].ptr, g)
    ensures if p > freep then mem[p].ptr <= freep || p < mem[p].ptr else p < mem[p].ptr <= freep
  {
  }

  lemma LapFacts(r: Run, p: nat)
    requires IsRun(r) && p in r.h.fs
    ensures Linked(r.h.mem, r.h.fs, p) && r.h.freep in r.h.fs && r.h.mem[p].ptr < |r.h.mem|
    ensures p in r.h.blocks && r.h.mem[p].size == r.h.blocks[p]
  {
    RunKeepsOrder(r);
    assert Linked(r.h.mem, r.h.fs, p);
    assert Linked(r.h.mem, r.h.fs, r.h.mem[p].ptr);
  }

  lemma LapStart(r: Run, n: nat)
    requires IsRun(r)
    ensures r.h.freep in r.h.fs && r.h.freep < |r.h.mem|
    ensures r.h.mem[r.h.freep].ptr in r.h.fs && r.h.mem[r.h.freep].ptr < |r.h.mem|
    ensures FitsAhead(r.h, r.h.mem[r.h.freep].ptr, n)
  {
    RunKeepsOrder(r);
    LapFacts(r, r.h.freep);
  }

  lemma LapStep(r: Run, p: nat, n: nat)
    requires IsRun(r) && p in r.h.fs && p < |r.h.mem| && FitsAhead(r.h, p, n)
    requires Ahead(r.h.freep, p, r.h.freep) && r.h.mem[p].size < n && p != r.h.freep
    ensures r.h.mem[p].ptr in r.h.fs && r.h.mem[p].ptr < |r.h.mem| && FitsAhead(r.h, r.h.mem[p].ptr, n)
    ensures if p > r.h.freep then r.h.mem[p].ptr <= r.h.freep || p < r.h.mem[p].ptr
            else p < r.h.mem[p].ptr <= r.h.freep
  {
    LapFacts(r, p);
    NextAhead(r.h.mem, r.h.fs, r.h.freep, p, r.h.freep);
    forall g | g in r.h.fs && g in r.h.blocks && n <= r.h.blocks[g]
      ensures Ahead(r.h.freep, r.h.mem[p].ptr, g)
    {
      NextAhead(r.h.mem, r.h.fs, r.h.freep, p, g);
    }
  }

  /** A full lap without success: no free block is large enough. */
  lemma LapEnd(r: Run, n: nat)
    requires IsRun(r) && r.h.freep in r.h.fs && FitsAhead(r.h, r.h.freep, n)
    requires r.h.freep < |r.h.mem| && r.h.mem[r.h.freep].size < n
    ensures forall f :: f in r.h.fs && f in r.h.blocks ==> r.h.blocks[f] < n
  {
    LapFacts(r, r.h.freep);
    NothingAhead(r.h, n);
  }

  lemma NothingAhead(h: State, n: nat)
    requires FitsAhead(h, h.freep, n) && h.freep in h.blocks && h.blocks[h.freep] < n
    ensures forall f :: f in h.fs && f in h.blocks ==> h.blocks[f] < n
  {
  }

  lemma UnitFacts(r: Run, a: nat, u: nat)
    requires IsRun(r) && a in Live(r.h) && a < u < a + Live(r.h)[a]
    ensures Enabled(r.h, Store(a, u, Header(0, 0))) && u < |r.h.mem| && !r.Start?
  {
    RunKeepsOrder(r);
  }

  lemma Fewer(s: set<nat>, p: nat, t: set<nat>)
    requires s <= t && p in t && p !in s
    ensures |s| < |t|
  {
    assert t == s + {p} + (t - s - {p});
  }

  class Umalloc {
    var mem: Memory
    var freep: nat
    var started: bool
    ghost var run: Run

    ghost predicate Valid()
      reads this
    {
      && IsRun(run) && mem == run.h.mem
      && (started ==> freep == run.h.freep)
      && (!started ==> run.Start?)
    }

    /** The blocks handed out and not yet freed, with their sizes in units. */
    ghost function Blocks(): map<nat, nat>
      reads this
    {
      Live(run.h)
    }

    constructor (units: nat)
      requires 1 <= units
      ensures Valid() && !started && |mem| == units
    {
      mem := seq(units, _ => Header(0, 0));
      freep, started := 0, false;
      run := Start(State(seq(units, _ => Header(0, 0)), 0, map[0 := 0], {0}, 1, 0));
    }

    /** The program stores v in unit u of its block a. */
    method StoreUnit(a: nat, u: nat, v: Header)
      requires Valid() && a in Blocks() && a < u < a + Blocks()[a]
      modifies this`mem, this`run
      ensures Valid() && Blocks() == old(Blocks()) && u < |old(mem)| && mem == old(mem)[u := v]
      ensures run.h == old(run.h).(mem := mem)
    {
      UnitFacts(run, a, u);
      run := Then(run, Store(a, u, v), Step(run.h, Store(a, u, v)));
      mem := mem[u := v];
    }

    /** The search of `free`: starting anywhere on the ring it ends within one lap, after fewer steps
        than there are free blocks. */
    method FindPlace(bp: nat, ghost fs: set<nat>) returns (p: nat, ghost steps: nat)
      requires Ring(mem, fs) && freep in fs && 1 <= bp && bp !in fs
      ensures Precedes(fs, p, bp) && steps < |fs|
    {
      p, steps := freep, 0;
      ghost var visited: set<nat> := {};
      assert Linked(mem, fs, p);
      while !(p < bp < mem[p].ptr)
        invariant p in fs && Linked(mem, fs, p) && visited <= fs && |visited| == steps
        invariant forall v :: v in visited ==> if p > bp then bp < v < p else v < p || v > bp
        decreases p > bp, |mem| - p
      {
        if p >= mem[p].ptr && (bp > p || bp < mem[p].ptr) {
          break;
        }
        visited, steps := visited + {p}, steps + 1;
        p := mem[p].ptr;
        assert Linked(mem, fs, p);
      }
      Fewer(visited, p, fs);
    }

    /** The header updates of `free`. */
    method Link(p: nat, bp: nat)
      requires p < |mem| && bp < |mem| && p != bp && mem[p].ptr < |mem|
      modifies this`mem, this`freep
      ensures mem == Freed(old(mem), p, bp) && freep == p
    {
      var nx := mem[p].ptr;
      if bp + mem[bp].size == nx {
        var size, ptr := mem[nx].size, mem[nx].ptr;
        mem := mem[bp := mem[bp].(size := mem[bp].size + size)];
        mem := mem[bp := mem[bp].(ptr := ptr)];
      } else {
        mem := mem[bp := mem[bp].(ptr := nx)];
      }
      if p + mem[p].size == bp {
        mem := mem[p := mem[p].(size := mem[p].size + mem[bp].size)];
        mem := mem[p := mem[p].(ptr := mem[bp].ptr)];
      } else {
        mem := mem[p := mem[p].(ptr := bp)];
      }
      freep := p;
    }

    /** `free` of a live block; f is the free block that now contains it. */
    method Free(bp: nat) returns (ghost f: nat)
      requires Valid() && started && bp in Blocks()
      modifies this`mem, this`freep, this`run
      ensures Valid() && Blocks() == old(Blocks()) - {bp} && |mem| == old(|mem|)
      ensures run.h.obtained == old(run.h.obtained) && run.h.brk == old(run.h.brk)
      ensures PayloadKept(old(mem), mem, old(Blocks()))
      ensures f in run.h.fs && f in run.h.blocks && old(run.h.blocks)[bp] <= run.h.blocks[f]
      ensures Precedes(old(run.h.fs), freep, bp)
    {
      LiveFacts(run, bp);
      var p, steps := FindPlace(bp, run.h.fs);
      ghost var r;
      r, f := ReleaseRun(run, p, bp);
      Link(p, bp);
      run := r;
    }

    /** `morecore` with the address hp that `sbrk` returned. */
    method MoreCore(nunits: nat, hp: nat) returns (ghost f: nat)
      requires Valid() && started
      requires run.h.brk <= hp && hp + CoreUnits(nunits) <= |mem|
      modifies this`mem, this`freep, this`run
      ensures Valid() && Blocks() == old(Blocks())
      ensures run.h.obtained == old(run.h.obtained) + CoreUnits(nunits)
      ensures PayloadKept(old(mem), mem, old(Blocks()))
      ensures f in run.h.fs && f in run.h.blocks && nunits <= run.h.blocks[f]
    {
      var nu := CoreUnits(nunits);
      ghost var r := GrowRun(run, hp, nu);
      ghost var live := Blocks();
      mem := mem[hp := mem[hp].(size := nu)];
      run := r;
      f := Free(hp);
      LiveRestored(live, hp, nu);
      PayloadChain(old(mem), r.h.mem, mem, live, live[hp := nu]);
    }

    /** Cut the request out of block p, as in the body of the loop of `malloc`. */
    method Cut(prev: nat, p: nat, n: nat) returns (q: nat)
      requires Valid() && started && prev in run.h.fs && prev < |mem| && mem[prev].ptr == p
      requires p in run.h.fs && p < |mem| && 1 <= n <= mem[p].size
      modifies this`mem, this`freep, this`run
      ensures Valid() && q !in old(Blocks()) && Blocks() == old(Blocks())[q := n]
      ensures q == p + old(mem)[p].size - n && freep == prev
      ensures run.h.obtained == old(run.h.obtained)
      ensures PayloadKept(old(mem), mem, old(Blocks()))
    {
      ghost var r := TakeRun(run, prev, p, n);
      LiveAfterTake(run.h, prev, p, n);
      q := p;
      if mem[p].size == n {
        mem := mem[prev := mem[prev].(ptr := mem[p].ptr)];
      } else {
        mem := mem[p := mem[p].(size := mem[p].size - n)];
        q := q + mem[q].size;
        mem := mem[q := mem[q].(size := n)];
      }
      freep := prev;
      run := r;
    }

    /** The loop of `malloc`: walk the ring until the first block p, behind prev, that holds n units;
        after a full lap without one ask for core, which makes the next lap succeed. */
    method Search(n: nat, core: Option<nat>) returns (found: bool, prev: nat, p: nat, sbrks: nat)
      requires Valid() && started && 1 <= n
      requires core.Some? ==> run.h.brk <= core.value && core.value + CoreUnits(n) <= |mem|
      modifies this`mem, this`freep, this`run
      ensures Valid() && Blocks() == old(Blocks())
      ensures found ==> prev in run.h.fs && prev < |mem| && mem[prev].ptr == p
                        && p in run.h.fs && p < |mem| && n <= mem[p].size
      ensures !found ==> core.None? && forall f :: f in run.h.fs && f in run.h.blocks ==> run.h.blocks[f] < n
      ensures sbrks <= 1 && (sbrks == 1 ==> core.Some? && NothingFits(old(run.h), n))
      ensures found ==> FitsAhead(run.h, p, n)
      ensures run.h.obtained == old(run.h.obtained) + if sbrks == 1 then CoreUnits(n) else 0
      ensures PayloadKept(old(mem), mem, old(Blocks()))
    {
      sbrks := 0;
      LapStart(run, n);
      prev := freep;
      p := mem[prev].ptr;
      ghost var f := 0;
      while mem[p].size < n
        invariant Valid() && Blocks() == old(Blocks())
        invariant prev in run.h.fs && prev < |mem| && mem[prev].ptr == p
        invariant p in run.h.fs && p < |mem| && FitsAhead(run.h, p, n)
        invariant sbrks <= 1 && (sbrks == 1 ==> NothingFits(old(run.h), n))
        invariant sbrks == 1 ==> core.Some? && f in run.h.fs && f in run.h.blocks && n <= run.h.blocks[f]
        invariant sbrks == 0 ==> run == old(run) && mem == old(mem)
        invariant run.h.obtained == old(run.h.obtained) + if sbrks == 1 then CoreUnits(n) else 0
        invariant PayloadKept(old(mem), mem, old(Blocks()))
        decreases 1 - sbrks, p > freep, |mem| - p
      {
        if p == freep {
          LapEnd(run, n);
          assert sbrks == 0;
          if core.None? {
            found := false;
            return;
          }
          f := MoreCore(n, core.value);
          sbrks := 1;
          p := freep;
          LapStart(run, n);
        } else {
          LapStep(run, p, n);
        }
        prev := p;
        p := mem[p].ptr;
      }
      found := true;
    }

    /** `malloc`.  `core` is what `sbrk` would answer if asked; it is asked at most once.
        The result is the address of the payload, one unit behind the header. */
    method Malloc(nbytes: nat, core: Option<nat>) returns (ap: Option<nat>, sbrks: nat)
      requires Valid() && nbytes < UINT
      requires core.Some? ==> run.h.brk <= core.value && core.value + CoreUnits(Units(nbytes)) <= |mem|
      modifies this
      ensures Valid() && started
      ensures ap.Some? ==> 1 <= ap.value && ap.value - 1 !in old(Blocks())
                           && Blocks() == old(Blocks())[ap.value - 1 := Units(nbytes)]
      ensures ap.None? ==> core.None? && Blocks() == old(Blocks())
                           && forall f :: f in run.h.fs && f in run.h.blocks ==> run.h.blocks[f] < Units(nbytes)
      ensures sbrks <= 1 && (sbrks == 1 ==> core.Some? && NothingFits(old(run.h), Units(nbytes)))
      ensures run.h.obtained == old(run.h.obtained) + if sbrks == 1 then CoreUnits(Units(nbytes)) else 0
      ensures PayloadKept(old(mem), mem, old(Blocks()))
    {
      var n := Units(nbytes);
      if !started {
        mem := mem[0 := Header(0, 0)];
        freep, started := 0, true;
      }
      var found, prev, p;
      found, prev, p, sbrks := Search(n, core);
      if !found {
        ap := None;
        return;
      }
      ghost var m := mem;
      var q := Cut(prev, p, n);
      PayloadChain(old(mem), m, mem, old(Blocks()), old(Blocks()));
      ap := Some(q + 1);
    }
  }
}
