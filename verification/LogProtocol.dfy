/**
  Group commit as an interleaving of processes (src/log.c: begin_op, log_write, end_op, commit,
  recover_from_log), with a crash possible before and after every single block write.

  A kernel call runs unpreempted up to its next sleep, so one event is the part of a call between
  two sleeps: an attempt of `begin_op`, a buffer update with its `log_write`, the head of `end_op`,
  and each block write of `commit` or of recovery (the disk driver sleeps inside `bwrite`).
 */
module LogProtocol {
  import opened LogDisk
  import Sums

  /** Where the process that commits or recovers stands.  With `committing` unset, Installing
      and Clearing belong to recovery. */
  datatype Phase =
    | Booting
    | Quiet
    | WritingLog(tail: nat)
    | WritingHead
    | Installing(tail: nat)
    | Clearing

  /** `budget` maps each process inside an operation to the `log_write` calls it has left;
      `asleep` holds the processes sleeping on the log in `begin_op`. */
  datatype State = State(
    disk: Disk,
    cache: map<nat, Block>,
    lh: seq<nat>,
    outstanding: int,
    committing: bool,
    phase: Phase,
    budget: map<nat, int>,
    asleep: set<nat>)

  datatype Event =
    | Begin(p: nat)
    | Write(p: nat, b: nat, data: Block)
    | End(p: nat)
    | Advance
    | Crash

  datatype Outcome = Next(s: State) | Panic

  predicate Enabled(g: Geometry, s: State, e: Event)
  {
    match e
    case Begin(p) => (s.phase.Quiet? || s.committing) && p !in s.budget && p !in s.asleep
    case Write(p, b, _) => p in s.budget && Home(g, |s.disk|, b)
    case End(p) => p in s.budget
    case Advance => !s.phase.Quiet?
    case Crash => true
  }

  predicate MustWait(s: State)
  {
    s.committing || |s.lh| + (s.outstanding + 1) * MAXOPBLOCKS > LOGSIZE
  }

  function StepBegin(s: State, p: nat): (r: State)
  {
    if MustWait(s) then s.(asleep := s.asleep + {p})
    else s.(outstanding := s.outstanding + 1, budget := s.budget[p := MAXOPBLOCKS])
  }

  function StepWrite(g: Geometry, s: State, p: nat, b: nat, data: Block): (r: Outcome)
    requires p in s.budget
  {
    if |s.lh| >= LOGSIZE || |s.lh| >= g.size - 1 then Panic
    else if s.outstanding < 1 then Panic
    else Next(s.(lh := if b in s.lh then s.lh else s.lh + [b],
                 cache := s.cache[b := data],
                 budget := s.budget[p := s.budget[p] - 1]))
  }

  /** An operation is admitted if and only if nobody commits and ten more blocks for it and for every
      open operation fit the thirty of the log. */
  lemma AdmittedWhen(s: State, p: nat)
    ensures MustWait(s) <==> s.committing || |s.lh| + (s.outstanding + 1) * 10 > 30
    ensures MustWait(s) ==> StepBegin(s, p) == s.(asleep := s.asleep + {p})
    ensures !MustWait(s) ==> StepBegin(s, p) == s.(outstanding := s.outstanding + 1, budget := s.budget[p := 10])
  {
  }

  function StepEnd(s: State, p: nat): (r: Outcome)
  {
    var s1 := s.(outstanding := s.outstanding - 1, budget := s.budget - {p});
    if s1.committing then Panic
    else if s1.outstanding != 0 || s1.lh == [] then Next(s1.(asleep := {}))
    else Next(s1.(committing := true, phase := WritingLog(0)))
  }

  /** The bounds each phase needs before its next block write can be expressed. */
  predicate Runnable(g: Geometry, s: State)
  {
    && Placed(g, s.disk)
    && |s.lh| <= LOGSIZE && |s.lh| < g.size
    && (forall i :: 0 <= i < |s.lh| ==> s.lh[i] < |s.disk|)
    && match s.phase
       case WritingLog(tail) => forall i :: 0 <= i < |s.lh| ==> s.lh[i] in s.cache
       case _ => true
  }

  function StepAdvance(g: Geometry, s: State): (r: State)
    requires Runnable(g, s)
  {
    match s.phase
    case Quiet => s
    case Booting => s.(lh := Head(g, s.disk), phase := Installing(0))
    case WritingLog(tail) =>
      if tail < |s.lh| then
        s.(disk := LogBlock(g, s.disk, tail, s.cache[s.lh[tail]]), phase := WritingLog(tail + 1))
      else
        s.(phase := WritingHead)
    case WritingHead =>
      s.(disk := HeadBlock(g, s.disk, s.lh), phase := Installing(0))
    case Installing(tail) =>
      if tail < |s.lh| then
        s.(disk := InstallBlock(g, s.disk, s.lh, tail), cache := s.cache - {s.lh[tail]},
           phase := Installing(tail + 1))
      else
        s.(lh := [], phase := Clearing)
    case Clearing =>
      s.(disk := HeadBlock(g, s.disk, s.lh), phase := Quiet, committing := false, asleep := {})
  }

  /** Everything but the disk is lost. */
  function Reboot(d: Disk): (r: State)
  {
    State(d, map[], [], 0, false, Booting, map[], {})
  }

  function Step(g: Geometry, s: State, e: Event): (r: Outcome)
    requires Runnable(g, s) && Enabled(g, s, e)
  {
    match e
    case Begin(p) => Next(StepBegin(s, p))
    case Write(p, b, data) => StepWrite(g, s, p, b, data)
    case End(p) => StepEnd(s, p)
    case Advance => Next(StepAdvance(g, s))
    case Crash => Next(Reboot(s.disk))
  }

  // ----- the invariant -----

  /** While a commit installs, exactly the entries from `tail` on are still dirty in the cache,
      and they agree with their log blocks; recovery runs with an empty cache. */
  ghost predicate StillCached(g: Geometry, d: Disk, lh: seq<nat>, cache: map<nat, Block>,
                              committing: bool, tail: nat)
    requires Placed(g, d) && |lh| < g.size
  {
    && (forall b :: b in cache ==> b in lh)
    && (forall i :: 0 <= i < |lh| ==> (lh[i] in cache <==> committing && tail <= i))
    && (forall i :: 0 <= i < |lh| && lh[i] in cache ==> cache[lh[i]] == d[g.start + 1 + i])
  }

  /** What each phase knows about the disk, the cache and the logged block list. */
  ghost predicate PhaseInv(g: Geometry, s: State)
    requires Formatted(g, s.disk) && FitsLog(g, |s.disk|, s.lh)
  {
    var hd := Head(g, s.disk);
    match s.phase
    case Booting => s.cache == map[] && s.lh == [] && !s.committing
    case Quiet => hd == [] && !s.committing && (forall b :: b in s.cache <==> b in s.lh)
    case WritingLog(tail) =>
      hd == [] && s.committing && (forall b :: b in s.cache <==> b in s.lh)
      && tail <= |s.lh| && LogHolds(g, s.disk, s.lh, s.cache, tail)
    case WritingHead =>
      hd == [] && s.committing && (forall b :: b in s.cache <==> b in s.lh)
      && LogHolds(g, s.disk, s.lh, s.cache, |s.lh|)
    case Installing(tail) =>
      hd == s.lh && tail <= |s.lh| && Installed(g, s.disk, s.lh, tail)
      && StillCached(g, s.disk, s.lh, s.cache, s.committing, tail)
    case Clearing => s.lh == [] && s.cache == map[] && Installed(g, s.disk, hd, |hd|)
  }

  ghost predicate Inv(g: Geometry, s: State)
  {
    && Formatted(g, s.disk)
    && FitsLog(g, |s.disk|, s.lh)
    && PhaseInv(g, s)
    && s.outstanding == |s.budget|
    && (s.committing || !s.phase.Quiet? ==> s.budget == map[])
    && (s.outstanding == 0 && s.phase.Quiet? ==> s.lh == [])
    && (s.asleep != {} ==> MustWait(s) && (s.phase.Quiet? || s.committing))
  }

  lemma InvRunnable(g: Geometry, s: State)
    requires Inv(g, s)
    ensures Runnable(g, s)
  {
  }

  /** A formatted disk boots into a state that satisfies the invariant, whatever crash left it. */
  lemma RebootInv(g: Geometry, d: Disk)
    requires Formatted(g, d)
    ensures Inv(g, Reboot(d))
  {
  }

  lemma PhaseFrame(g: Geometry, s: State, s': State)
    requires Formatted(g, s.disk) && FitsLog(g, |s.disk|, s.lh) && PhaseInv(g, s)
    requires s'.disk == s.disk && s'.cache == s.cache && s'.lh == s.lh
    requires s'.committing == s.committing && s'.phase == s.phase
    ensures PhaseInv(g, s')
  {
  }

  lemma BeginKeepsInv(g: Geometry, s: State, p: nat)
    requires Inv(g, s) && Enabled(g, s, Begin(p))
    ensures Inv(g, StepBegin(s, p))
  {
    var s' := StepBegin(s, p);
    PhaseFrame(g, s, s');
    if !MustWait(s) {
      Sums.CountDrop(s'.budget, p);
      assert s'.budget - {p} == s.budget;
    }
  }

  lemma WriteKeepsInv(g: Geometry, s: State, p: nat, b: nat, data: Block)
    requires Inv(g, s) && Enabled(g, s, Write(p, b, data)) && StepWrite(g, s, p, b, data).Next?
    ensures Inv(g, StepWrite(g, s, p, b, data).s)
  {
    var s' := StepWrite(g, s, p, b, data).s;
    assert s'.budget.Keys == s.budget.Keys;
    assert |s'.budget| == |s'.budget.Keys| == |s.budget.Keys|;
  }

  lemma EndKeepsInv(g: Geometry, s: State, p: nat)
    requires Inv(g, s) && Enabled(g, s, End(p))
    ensures StepEnd(s, p).Next? && Inv(g, StepEnd(s, p).s)
  {
    Sums.CountDrop(s.budget, p);
    assert |s.budget - {p}| == 0 ==> s.budget - {p} == map[];
  }

  lemma WritingLogKeepsInv(g: Geometry, s: State)
    requires Inv(g, s) && Runnable(g, s) && s.phase.WritingLog?
    ensures Inv(g, StepAdvance(g, s))
  {
    var tail := s.phase.tail;
    if tail < |s.lh| {
      LogBlockInvisible(g, s.disk, tail, s.cache[s.lh[tail]]);
    }
  }

  lemma StillCachedStep(g: Geometry, d: Disk, lh: seq<nat>, cache: map<nat, Block>,
                        committing: bool, tail: nat)
    requires Placed(g, d) && FitsLog(g, |d|, lh) && tail < |lh|
    requires StillCached(g, d, lh, cache, committing, tail)
    ensures StillCached(g, InstallBlock(g, d, lh, tail), lh, cache - {lh[tail]}, committing, tail + 1)
  {
  }

  lemma InstalledStep(g: Geometry, d: Disk, lh: seq<nat>, tail: nat)
    requires Placed(g, d) && FitsLog(g, |d|, lh) && tail < |lh|
    requires Installed(g, d, lh, tail)
    ensures Installed(g, InstallBlock(g, d, lh, tail), lh, tail + 1)
  {
    var d' := InstallBlock(g, d, lh, tail);
    forall i | 0 <= i < tail + 1
      ensures d'[lh[i]] == d'[g.start + 1 + i]
    {
      assert Home(g, |d|, lh[i]) && Home(g, |d|, lh[tail]);
    }
  }

  lemma InstallOneKeepsPhase(g: Geometry, s: State)
    requires Formatted(g, s.disk) && FitsLog(g, |s.disk|, s.lh) && PhaseInv(g, s)
    requires Runnable(g, s) && s.phase.Installing? && s.phase.tail < |s.lh|
    ensures Formatted(g, StepAdvance(g, s).disk) && PhaseInv(g, StepAdvance(g, s))
  {
    var s', tail := StepAdvance(g, s), s.phase.tail;
    InstallInvisible(g, s.disk, tail);
    StillCachedStep(g, s.disk, s.lh, s.cache, s.committing, tail);
    InstalledStep(g, s.disk, s.lh, tail);
  }

  lemma InstallDoneKeepsInv(g: Geometry, s: State)
    requires Inv(g, s) && Runnable(g, s) && s.phase.Installing? && s.phase.tail == |s.lh|
    ensures Inv(g, StepAdvance(g, s))
  {
    assert s.cache.Keys == {};
  }

  lemma WritingHeadKeepsInv(g: Geometry, s: State)
    requires Inv(g, s) && Runnable(g, s) && s.phase.WritingHead?
    ensures Inv(g, StepAdvance(g, s))
  {
    HeadWritten(g, s.disk, s.lh);
    HeadStillCached(g, s.disk, s.lh, s.cache);
  }

  /** Behind the header write everything listed is dirty in the cache and agrees with its log block. */
  lemma HeadStillCached(g: Geometry, d: Disk, lh: seq<nat>, cache: map<nat, Block>)
    requires Placed(g, d) && |lh| <= LOGSIZE && |lh| < g.size
    requires LogHolds(g, d, lh, cache, |lh|) && forall b :: b in cache ==> b in lh
    ensures StillCached(g, HeadBlock(g, d, lh), lh, cache, true, 0)
  {
  }

  lemma ClearingKeepsInv(g: Geometry, s: State)
    requires Inv(g, s) && Runnable(g, s) && s.phase.Clearing?
    ensures Inv(g, StepAdvance(g, s))
  {
    ClearInvisible(g, s.disk);
  }

  lemma AdvanceKeepsInv(g: Geometry, s: State)
    requires Inv(g, s) && Runnable(g, s) && !s.phase.Quiet?
    ensures Inv(g, StepAdvance(g, s))
  {
    match s.phase
    case Booting =>
    case WritingLog(_) => WritingLogKeepsInv(g, s);
    case WritingHead => WritingHeadKeepsInv(g, s);
    case Installing(_) => 
      if s.phase.tail < |s.lh| { InstallOneKeepsPhase(g, s); } else { InstallDoneKeepsInv(g, s); }
    case Clearing => ClearingKeepsInv(g, s);
  }
}
