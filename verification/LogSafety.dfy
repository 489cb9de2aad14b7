/**
  What every run of the log protocol guarantees: crash atomicity as refinement of an atomic
  store, exclusive commits, enough log space for admitted operations, and no lost wake-up.
 */
module LogSafety {
  import opened LogDisk
  import opened LogProtocol
  import Sums

  // ----- the atomic store the log implements -----

  /** `durable` is what a crash leaves behind, `volatile` what readers see. */
  datatype Store = Store(durable: Image, volatile: Image)

  datatype StoreEvent = Put(b: nat, data: Block) | CommitAll | LoseVolatile | Stutter

  function StoreStep(m: Store, e: StoreEvent): (r: Store)
  {
    match e
    case Put(b, data) => m.(volatile := m.volatile[b := data])
    case CommitAll => m.(durable := m.volatile)
    case LoseVolatile => m.(volatile := m.durable)
    case Stutter => m
  }

  predicate CommitPoint(s: State, e: Event)
  {
    e.Advance? && s.phase.WritingHead?
  }

  function Label(s: State, e: Event): (r: StoreEvent)
  {
    if e.Write? then Put(e.b, e.data)
    else if e.Crash? then LoseVolatile
    else if CommitPoint(s, e) then CommitAll
    else Stutter
  }

  ghost function Abs(g: Geometry, s: State): Store
    requires Formatted(g, s.disk)
  {
    Store(Durable(g, s.disk), Overlay(g, s.disk, s.cache))
  }

  // ----- one step -----

  lemma StepKeepsInv(g: Geometry, s: State, e: Event)
    requires Inv(g, s) && Runnable(g, s) && Enabled(g, s, e) && Step(g, s, e).Next?
    ensures Inv(g, Step(g, s, e).s)
  {
    match e
    case Begin(p) => BeginKeepsInv(g, s, p);
    case Write(p, b, data) => WriteKeepsInv(g, s, p, b, data);
    case End(p) => EndKeepsInv(g, s, p);
    case Advance => AdvanceKeepsInv(g, s);
    case Crash => RebootInv(g, s.disk);
  }

  lemma WriteLogRefines(g: Geometry, s: State)
    requires Formatted(g, s.disk) && FitsLog(g, |s.disk|, s.lh) && PhaseInv(g, s) && Runnable(g, s)
    requires s.phase.WritingLog? && s.phase.tail < |s.lh|
    ensures Formatted(g, StepAdvance(g, s).disk) && Abs(g, StepAdvance(g, s)) == Abs(g, s)
  {
    LogBlockInvisible(g, s.disk, s.phase.tail, s.cache[s.lh[s.phase.tail]]);
    OverlayFollows(g, s.disk, StepAdvance(g, s).disk, s.cache);
  }

  lemma WriteHeadRefines(g: Geometry, s: State)
    requires Formatted(g, s.disk) && FitsLog(g, |s.disk|, s.lh) && PhaseInv(g, s) && Runnable(g, s)
    requires s.phase.WritingHead?
    ensures Formatted(g, StepAdvance(g, s).disk)
    ensures Abs(g, StepAdvance(g, s)) == StoreStep(Abs(g, s), CommitAll)
  {
    HeadCommits(g, s.disk, s.lh, s.cache);
    OverlayAbsorbed(g, s.disk, s.lh, s.cache);
  }

  lemma InstallRefines(g: Geometry, s: State)
    requires Formatted(g, s.disk) && FitsLog(g, |s.disk|, s.lh) && PhaseInv(g, s) && Runnable(g, s)
    requires s.phase.Installing? && s.phase.tail < |s.lh|
    ensures Formatted(g, StepAdvance(g, s).disk) && Abs(g, StepAdvance(g, s)) == Abs(g, s)
  {
    InstallKeepsStore(g, s.disk, s.cache, s.phase.tail);
  }

  lemma InstallKeepsStore(g: Geometry, d: Disk, cache: map<nat, Block>, tail: nat)
    requires Formatted(g, d) && tail < |Head(g, d)|
    requires var b := Head(g, d)[tail]; b in cache ==> cache[b] == d[g.start + 1 + tail]
    ensures var d' := InstallBlock(g, d, Head(g, d), tail);
      && Formatted(g, d') && Durable(g, d') == Durable(g, d)
      && Overlay(g, d', cache - {Head(g, d)[tail]}) == Overlay(g, d, cache)
  {
    InstallInvisible(g, d, tail);
    InstallOverlay(g, d, cache, tail);
  }

  lemma InstallOverlay(g: Geometry, d: Disk, cache: map<nat, Block>, tail: nat)
    requires Formatted(g, d) && tail < |Head(g, d)|
    requires var b := Head(g, d)[tail]; b in cache ==> cache[b] == d[g.start + 1 + tail]
    ensures var d' := InstallBlock(g, d, Head(g, d), tail);
      Formatted(g, d') && Overlay(g, d', cache - {Head(g, d)[tail]}) == Overlay(g, d, cache)
  {
    var d' := InstallBlock(g, d, Head(g, d), tail);
    InstallInvisible(g, d, tail);
    OverlayFollows(g, d, d', cache);
    assert d'[g.start + 1 + tail] == d[g.start + 1 + tail];
    OverlayDrop(g, d', cache, tail);
  }

  lemma AdvanceRefines(g: Geometry, s: State)
    requires Inv(g, s) && Runnable(g, s) && !s.phase.Quiet?
    ensures Formatted(g, StepAdvance(g, s).disk)
    ensures Abs(g, StepAdvance(g, s)) == StoreStep(Abs(g, s), Label(s, Advance))
  {
    if s.phase.WritingHead? {
      WriteHeadRefines(g, s);
    } else {
      InvisibleAdvance(g, s);
    }
  }

  /** Every block write but the one of the header stays invisible. */
  lemma InvisibleAdvance(g: Geometry, s: State)
    requires Inv(g, s) && Runnable(g, s) && !s.phase.Quiet? && !s.phase.WritingHead?
    ensures Formatted(g, StepAdvance(g, s).disk) && Abs(g, StepAdvance(g, s)) == Abs(g, s)
  {
    match s.phase
    case Booting =>
    case WritingLog(tail) => if tail < |s.lh| { WriteLogRefines(g, s); }
    case Installing(tail) => if tail < |s.lh| { InstallRefines(g, s); }
    case Clearing => ClearRefines(g, s);
  }

  lemma ClearRefines(g: Geometry, s: State)
    requires Inv(g, s) && Runnable(g, s) && s.phase.Clearing?
    ensures Formatted(g, StepAdvance(g, s).disk)
    ensures Abs(g, StepAdvance(g, s)) == Abs(g, s)
  {
    ClearInvisible(g, s.disk);
    OverlayFollows(g, s.disk, StepAdvance(g, s).disk, s.cache);
  }

  lemma OverlayFollows(g: Geometry, d: Disk, d': Disk, cache: map<nat, Block>)
    requires Formatted(g, d) && Formatted(g, d') && Durable(g, d') == Durable(g, d) && |d'| == |d|
    ensures Overlay(g, d', cache) == Overlay(g, d, cache)
  {
    forall b: nat | b < |d| && Home(g, |d|, b)
      ensures Surviving(g, d', b) == Surviving(g, d, b)
    {
      assert Durable(g, d')[b] == Durable(g, d)[b];
    }
  }

  lemma OverlayAbsorbed(g: Geometry, d: Disk, lh: seq<nat>, cache: map<nat, Block>)
    requires Formatted(g, d) && Head(g, d) == [] && FitsLog(g, |d|, lh)
    requires forall b :: b in cache ==> b in lh
    requires LogHolds(g, d, lh, cache, |lh|)
    ensures Formatted(g, HeadBlock(g, d, lh))
    ensures Overlay(g, HeadBlock(g, d, lh), cache) == Overlay(g, d, cache)
  {
    HeadCommits(g, d, lh, cache);
    forall b: nat | b < |d| && Home(g, |d|, b)
      ensures Surviving(g, HeadBlock(g, d, lh), b) == if b in cache then cache[b] else Surviving(g, d, b)
    {
      HeadCommitsAt(g, d, lh, cache, b);
    }
  }

  /** A buffer equal to its log block may lose its dirty bit. */
  lemma OverlayDrop(g: Geometry, d: Disk, cache: map<nat, Block>, tail: nat)
    requires Formatted(g, d) && tail < |Head(g, d)|
    requires var b := Head(g, d)[tail]; b in cache ==> cache[b] == d[g.start + 1 + tail]
    ensures Overlay(g, d, cache - {Head(g, d)[tail]}) == Overlay(g, d, cache)
  {
    SurvivingEntry(g, d, tail);
  }

  lemma WriteRefines(g: Geometry, s: State, p: nat, b: nat, data: Block)
    requires Formatted(g, s.disk) && Enabled(g, s, Write(p, b, data))
    requires StepWrite(g, s, p, b, data).Next?
    ensures Abs(g, StepWrite(g, s, p, b, data).s) == StoreStep(Abs(g, s), Put(b, data))
  {
    assert Overlay(g, s.disk, s.cache[b := data]) == Overlay(g, s.disk, s.cache)[b := data];
  }

  /** Every step of the log is one step of the atomic store. */
  lemma StepRefines(g: Geometry, s: State, e: Event)
    requires Inv(g, s) && Runnable(g, s) && Enabled(g, s, e) && Step(g, s, e).Next?
    ensures Formatted(g, Step(g, s, e).s.disk)
    ensures Abs(g, Step(g, s, e).s) == StoreStep(Abs(g, s), Label(s, e))
  {
    match e
    case Begin(p) =>
    case Write(p, b, data) => WriteRefines(g, s, p, b, data);
    case End(p) =>
    case Advance => AdvanceRefines(g, s);
    case Crash => assert Overlay(g, s.disk, map[]) == Durable(g, s.disk);
  }

  // ----- every run -----

  /** A run, latest event outermost. */
  datatype Run = Start(s: State) | Then(prev: Run, e: Event, s: State)

  ghost predicate IsRun(g: Geometry, r: Run)
  {
    r.Then? ==>
      && IsRun(g, r.prev)
      && Runnable(g, r.prev.s) && Enabled(g, r.prev.s, r.e)
      && Step(g, r.prev.s, r.e) == Next(r.s)
  }

  function First(r: Run): (s: State)
  {
    if r.Start? then r.s else First(r.prev)
  }

  lemma {:induction false} RunKeepsInv(g: Geometry, r: Run)
    requires IsRun(g, r) && Inv(g, First(r))
    ensures Inv(g, r.s)
  {
    if r.Then? {
      RunKeepsInv(g, r.prev);
      StepKeepsInv(g, r.prev.s, r.e);
    }
  }

  /** The atomic store driven by the labels of a run. */
  function StoreRun(m: Store, r: Run): (m': Store)
  {
    if r.Start? then m else StoreStep(StoreRun(m, r.prev), Label(r.prev.s, r.e))
  }

  /** Crash atomicity: over every run with any number of crashes, also during recovery, the log
      behaves as the atomic store. */
  lemma {:induction false} RunRefines(g: Geometry, r: Run)
    requires IsRun(g, r) && Inv(g, First(r))
    ensures Inv(g, r.s)
    ensures Abs(g, r.s) == StoreRun(Abs(g, First(r)), r)
  {
    RunKeepsInv(g, r);
    if r.Then? {
      RunRefines(g, r.prev);
      StepRefines(g, r.prev.s, r.e);
    }
  }

  ghost predicate NoCommit(r: Run)
  {
    r.Then? ==> NoCommit(r.prev) && !CommitPoint(r.prev.s, r.e)
  }

  lemma {:induction false} StoreKeepsDurable(m: Store, r: Run)
    requires NoCommit(r)
    ensures StoreRun(m, r).durable == m.durable
  {
    if r.Then? {
      StoreKeepsDurable(m, r.prev);
    }
  }

  /** Without a commit point nothing that survives a crash changes, however often the machine
      crashes and recovers. */
  lemma OnlyCommitsAreDurable(g: Geometry, r: Run)
    requires IsRun(g, r) && Inv(g, First(r)) && NoCommit(r)
    ensures Inv(g, r.s) && Durable(g, r.s.disk) == Durable(g, First(r).disk)
  {
    RunRefines(g, r);
    StoreKeepsDurable(Abs(g, First(r)), r);
  }

  /** When recovery or a commit has finished, the header is empty and the home blocks themselves
      hold the durable image. */
  lemma QuietDisk(g: Geometry, s: State, b: nat)
    requires Inv(g, s) && s.phase.Quiet? && Home(g, |s.disk|, b)
    ensures Head(g, s.disk) == [] && s.disk[b] == Abs(g, s).durable[b]
  {
  }

  lemma InstalledAreRead(g: Geometry, s: State, b: nat)
    requires Formatted(g, s.disk) && FitsLog(g, |s.disk|, s.lh) && PhaseInv(g, s)
    requires s.phase.Installing? && s.committing && Home(g, |s.disk|, b) && b !in s.cache
    ensures Surviving(g, s.disk, b) == s.disk[b]
  {
    if b in s.lh {
      SurvivingEntry(g, s.disk, IndexOf(s.lh, b));
    }
  }

  /** Outside recovery, the contents a `bread` returns are the volatile image. */
  lemma ReadersSeeVolatile(g: Geometry, s: State, b: nat)
    requires Inv(g, s) && (s.phase.Quiet? || s.committing) && Home(g, |s.disk|, b)
    ensures Abs(g, s).volatile[b] == if b in s.cache then s.cache[b] else s.disk[b]
  {
    if b !in s.cache {
      if s.phase.Installing? {
        InstalledAreRead(g, s, b);
      } else {
        NothingPending(g, s, b);
      }
    }
  }

  lemma NothingPending(g: Geometry, s: State, b: nat)
    requires Formatted(g, s.disk) && FitsLog(g, |s.disk|, s.lh) && PhaseInv(g, s) && Home(g, |s.disk|, b)
    requires s.phase.Quiet? || s.phase.WritingLog? || s.phase.WritingHead? || s.phase.Clearing?
    ensures Surviving(g, s.disk, b) == s.disk[b]
  {
    var hd := Head(g, s.disk);
    if b in hd {
      SurvivingEntry(g, s.disk, IndexOf(hd, b));
    }
  }

  /** A bound on the block writes and phase changes left until the log is quiet again. */
  function StepsLeft(s: State): (r: int)
  {
    match s.phase
    case Quiet => 0
    case Clearing => 1
    case Installing(tail) => 2 + LOGSIZE - tail
    case WritingHead => 3 + LOGSIZE
    case Booting => 3 + LOGSIZE
    case WritingLog(tail) => 4 + 2 * LOGSIZE - tail
  }

  /** Undisturbed, every commit and every recovery finishes. */
  lemma CommitAndRecoveryFinish(g: Geometry, s: State)
    requires Inv(g, s) && Runnable(g, s) && !s.phase.Quiet?
    ensures 0 <= StepsLeft(StepAdvance(g, s)) < StepsLeft(s)
  {
  }

  // ----- the protocol among operations -----

  /** During a commit no operation is open: nothing can be logged, `end_op` cannot panic, and the
      only thing another process can do is fall asleep. */
  lemma CommitIsExclusive(g: Geometry, s: State, e: Event)
    requires Inv(g, s) && Runnable(g, s) && s.committing && Enabled(g, s, e)
    ensures s.outstanding == 0
    ensures !e.Write? && !e.End?
    ensures e.Begin? ==> Step(g, s, e) == Next(s.(asleep := s.asleep + {e.p}))
  {
  }

  /** `end_op` never reaches its panic. */
  lemma EndNeverPanics(g: Geometry, s: State, p: nat)
    requires Inv(g, s) && Runnable(g, s) && Enabled(g, s, End(p))
    ensures Step(g, s, End(p)).Next?
  {
    EndKeepsInv(g, s, p);
  }

  /** Block b was logged since the list was last emptied, by the end of a commit or by a crash. */
  ghost predicate LoggedSince(r: Run, b: nat)
  {
    && r.Then? && !r.e.Crash? && !(r.e.Advance? && r.s.phase.Clearing?)
    && ((r.e.Write? && r.e.b == b) || LoggedSince(r.prev, b))
  }

  /** Recovery installs the list it has read from the header. */
  predicate Recovering(s: State) { s.phase.Installing? && !s.committing }

  lemma ListStep(g: Geometry, s: State, e: Event, b: nat)
    requires Inv(g, s) && Runnable(g, s) && Enabled(g, s, e) && Step(g, s, e).Next?
    ensures var s' := Step(g, s, e).s;
      if Recovering(s') then true
      else if e.Crash? || (e.Advance? && s'.phase.Clearing?) then b !in s'.lh
      else !Recovering(s) && (b in s'.lh <==> b in s.lh || (e.Write? && e.b == b))
  {
  }

  /** On every run, also during a commit, the list holds exactly the blocks logged since the last
      commit, each once. */
  lemma {:induction false} ListIsWhatWasLogged(g: Geometry, r: Run, b: nat)
    requires IsRun(g, r) && Inv(g, First(r)) && First(r).lh == []
    ensures Distinct(r.s.lh)
    ensures !Recovering(r.s) ==> (b in r.s.lh <==> LoggedSince(r, b))
  {
    RunKeepsInv(g, r);
    if r.Then? {
      ListIsWhatWasLogged(g, r.prev, b);
      RunKeepsInv(g, r.prev);
      ListStep(g, r.prev.s, r.e, b);
    }
  }

  // ----- log space -----

  /** Operations that keep to their allowance of `log_write` calls. */
  predicate Modest(s: State, e: Event)
  {
    e.Write? && e.p in s.budget ==> s.budget[e.p] > 0
  }

  ghost predicate Reserved(s: State)
  {
    && (forall p :: p in s.budget ==> 0 <= s.budget[p] <= MAXOPBLOCKS)
    && |s.lh| + Sums.Sum(s.budget) <= LOGSIZE
  }

  lemma {:induction false} BudgetBound(m: map<nat, int>)
    requires forall p :: p in m ==> m[p] <= MAXOPBLOCKS
    ensures Sums.Sum(m) <= MAXOPBLOCKS * |m|
    decreases |m|
  {
    if p :| p in m {
      Sums.SumSplit(m, p);
      Sums.CountDrop(m, p);
      BudgetBound(m - {p});
    }
  }

  /** The admission test of `begin_op` reserves enough log space for all open operations. */
  lemma ReservationHolds(g: Geometry, s: State, e: Event)
    requires Inv(g, s) && Runnable(g, s) && Enabled(g, s, e) && Step(g, s, e).Next?
    requires Reserved(s) && Modest(s, e)
    ensures Reserved(Step(g, s, e).s)
  {
    match e
    case Begin(p) => BeginReserves(g, s, p);
    case Write(p, b, data) => Sums.SumSet(s.budget, p, s.budget[p] - 1);
    case End(p) => Sums.SumDrop(s.budget, p);
    case Advance => AdvanceReserves(g, s);
    case Crash =>
  }

  lemma BeginReserves(g: Geometry, s: State, p: nat)
    requires Inv(g, s) && Enabled(g, s, Begin(p)) && Reserved(s)
    ensures Reserved(StepBegin(s, p))
  {
    if !MustWait(s) {
      BudgetBound(s.budget);
      Sums.SumSet(s.budget, p, MAXOPBLOCKS);
    }
  }

  lemma AdvanceReserves(g: Geometry, s: State)
    requires Inv(g, s) && Runnable(g, s) && Enabled(g, s, Advance) && Reserved(s)
    ensures Reserved(StepAdvance(g, s))
  {
    assert s.budget == map[];
  }

  /** With more than LOGSIZE log blocks no modest operation ever meets a panic. */
  lemma ModestNeverPanics(g: Geometry, s: State, e: Event)
    requires Inv(g, s) && Runnable(g, s) && Enabled(g, s, e)
    requires Reserved(s) && Modest(s, e) && LOGSIZE < g.size
    ensures Step(g, s, e).Next?
  {
    match e
    case Write(p, b, data) =>
      Sums.SumCovers(s.budget, p);
      Sums.CountDrop(s.budget, p);
    case End(p) => EndKeepsInv(g, s, p);
    case _ =>
  }

  ghost predicate AllModest(r: Run)
  {
    r.Then? ==> AllModest(r.prev) && Modest(r.prev.s, r.e)
  }

  lemma {:induction false} RunKeepsReservation(g: Geometry, r: Run)
    requires IsRun(g, r) && Inv(g, First(r)) && Reserved(First(r)) && AllModest(r)
    ensures Inv(g, r.s) && Reserved(r.s)
  {
    RunKeepsInv(g, r);
    if r.Then? {
      RunKeepsInv(g, r.prev);
      RunKeepsReservation(g, r.prev);
      ReservationHolds(g, r.prev.s, r.e);
    }
  }

  // ----- sleeping in begin_op -----

  /** A sleeper always has a commit or an open operation left to wake it, and it is asleep only
      while it could not be admitted: no wake-up is lost. */
  lemma SleeperHasWaker(g: Geometry, s: State)
    requires Inv(g, s) && s.asleep != {}
    ensures MustWait(s)
    ensures s.committing || exists p :: p in s.budget
  {
    if forall p :: p !in s.budget {
      assert s.budget.Keys == {};
    }
  }
}
