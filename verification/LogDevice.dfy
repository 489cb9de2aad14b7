/**
  The methods of src/log.c as they run: fields updated in place, loops over the entries, one block
  write at a time.  A ghost run records the protocol steps taken, so that everything proved about
  runs of `LogProtocol` holds of these methods, and `writes` records every disk state that a crash
  could expose.
 */
module LogDevice {
  import opened LogDisk
  import opened LogProtocol
  import opened LogSafety
  import Sums

  ghost predicate Unfold(r: Run) { true }

  /** Runs that start in a state satisfying the invariant.  The quantifier keeps the definition
      folded except where `Unfold` is mentioned. */
  ghost predicate GoodRun(g: Geometry, r: Run)
  {
    forall q {:trigger Unfold(q)} :: q == r ==> IsRun(g, q) && Inv(g, First(q))
  }

  lemma GoodRunIs(g: Geometry, r: Run)
    ensures GoodRun(g, r) <==> IsRun(g, r) && Inv(g, First(r))
  {
    assert Unfold(r);
  }

  lemma RunFormatted(g: Geometry, r: Run)
    requires GoodRun(g, r)
    ensures Formatted(g, r.s.disk)
  {
    GoodRunIs(g, r);
    RunKeepsInv(g, r);
  }

  lemma QuietRun(g: Geometry, r: Run)
    requires GoodRun(g, r) && r.s.phase.Quiet? && r.s.lh == []
    ensures Formatted(g, r.s.disk) && Head(g, r.s.disk) == [] && r.s.cache == map[]
  {
    GoodRunIs(g, r);
    RunKeepsInv(g, r);
    assert r.s.cache.Keys == {};
  }

  lemma QuietStore(g: Geometry, r: Run)
    requires GoodRun(g, r) && r.s.phase.Quiet? && r.s.lh == []
    ensures Formatted(g, r.s.disk) && Abs(g, r.s).durable == Abs(g, r.s).volatile
  {
    QuietRun(g, r);
    assert Overlay(g, r.s.disk, map[]) == Durable(g, r.s.disk);
  }

  /** Lengthen a run by one block write (or phase change) of the commit or the recovery. */
  lemma AdvanceRun(g: Geometry, r: Run) returns (r': Run)
    requires GoodRun(g, r) && !r.s.phase.Quiet?
    ensures Runnable(g, r.s) && Formatted(g, r.s.disk)
    ensures r' == Then(r, Advance, StepAdvance(g, r.s)) && GoodRun(g, r')
    ensures Formatted(g, r'.s.disk)
    ensures Abs(g, r'.s) == StoreStep(Abs(g, r.s), Label(r.s, Advance))
  {
    GoodRunIs(g, r);
    RunKeepsInv(g, r);
    InvRunnable(g, r.s);
    StepRefines(g, r.s, Advance);
    r' := Then(r, Advance, StepAdvance(g, r.s));
    GoodRunIs(g, r');
  }

  /** Lengthen a run by a call of begin_op, log_write or end_op that does not panic. */
  lemma CallRun(g: Geometry, r: Run, e: Event) returns (r': Run)
    requires GoodRun(g, r) && Enabled(g, r.s, e) && !e.Advance?
    ensures Runnable(g, r.s) && Formatted(g, r.s.disk)
    ensures e.Begin? || e.End? ==> Step(g, r.s, e).Next?
    ensures e.End? ==> !r.s.committing && r.s.outstanding >= 1 && r.s.phase.Quiet?
    ensures e.Write? ==> r.s.outstanding >= 1
    ensures Step(g, r.s, e).Next? ==>
      && r' == Then(r, e, Step(g, r.s, e).s) && GoodRun(g, r')
      && Formatted(g, r'.s.disk)
      && Abs(g, r'.s) == StoreStep(Abs(g, r.s), Label(r.s, e))
  {
    GoodRunIs(g, r);
    RunKeepsInv(g, r);
    InvRunnable(g, r.s);
    if e.End? {
      EndNeverPanics(g, r.s, e.p);
    }
    if e.Write? {
      Sums.CountDrop(r.s.budget, e.p);
    }
    r' := r;
    if Step(g, r.s, e).Next? {
      StepRefines(g, r.s, e);
      r' := Then(r, e, Step(g, r.s, e).s);
      GoodRunIs(g, r');
    }
  }

  /** Lengthen a run by a `log_write` that finds room. */
  lemma WriteRun(g: Geometry, r: Run, p: nat, b: nat, data: Block) returns (r': Run)
    requires GoodRun(g, r) && Enabled(g, r.s, Write(p, b, data)) && |r.s.lh| < LOGSIZE && |r.s.lh| < g.size - 1
    ensures p in r.s.budget && r.s.outstanding >= 1 && r' == Then(r, Write(p, b, data), r'.s) && GoodRun(g, r')
    ensures r'.s == r.s.(lh := if b in r.s.lh then r.s.lh else r.s.lh + [b], cache := r.s.cache[b := data],
                         budget := r.s.budget[p := r.s.budget[p] - 1])
  {
    r' := CallRun(g, r, Write(p, b, data));
  }

  class Log {
    const g: Geometry
    const block: array<nat>
    var disk: Disk
    var cache: map<nat, Block>
    var n: nat
    var outstanding: int
    var committing: bool
    var asleep: set<nat>
    ghost var phase: Phase
    ghost var budget: map<nat, int>
    ghost var run: Run
    ghost var writes: seq<Disk>

    ghost function Snap(): State
      reads this, block
      requires n <= block.Length
    {
      State(disk, cache, block[..n], outstanding, committing, phase, budget, asleep)
    }

    ghost predicate Valid()
      reads this, block
    {
      block.Length == LOGSIZE && n <= LOGSIZE && GoodRun(g, run) && run.s == Snap()
    }

    /** The writes made since `from` would all recover to the image m. */
    ghost predicate AllRecoverTo(from: seq<Disk>, m: Image)
      reads this
    {
      from <= writes && forall k :: |from| <= k < |writes| ==>
        Formatted(g, writes[k]) && Durable(g, writes[k]) == m
    }

    /** Power on with the given disk. */
    constructor (g: Geometry, d: Disk)
      requires Formatted(g, d)
      ensures Valid() && Snap() == Reboot(d) && this.g == g && writes == []
      ensures fresh(block)
    {
      this.g := g;
      block := new nat[LOGSIZE](_ => 0);
      disk, cache, n, outstanding, committing, asleep := d, map[], 0, 0, false, {};
      phase, budget, run, writes := Booting, map[], Start(Reboot(d)), [];
      new;
      RebootInv(g, d);
      GoodRunIs(g, run);
    }

    /** One `bwrite`. */
    method Bwrite(b: nat, data: Block)
      requires b < |disk|
      modifies this`disk, this`writes
      ensures disk == old(disk)[b := data] && writes == old(writes) + [disk]
    {
      disk := disk[b := data];
      writes := writes + [disk];
    }

    method WriteHead()
      requires block.Length == LOGSIZE && n <= LOGSIZE && Placed(g, disk)
      modifies this`disk, this`writes
      ensures disk == HeadBlock(g, old(disk), block[..n]) && writes == old(writes) + [disk]
      ensures disk == old(disk)[g.start := disk[g.start]] && disk[g.start][0] == n
      ensures forall i :: 0 <= i < n ==> disk[g.start][1 + i] == block[i]
    {
      var hb: Block := disk[g.start][0 := n];
      for i := 0 to n
        invariant hb == [n] + block[..i] + disk[g.start][i + 1..]
      {
        hb := hb[1 + i := block[i]];
      }
      assert hb == PutHead(disk[g.start], block[..n]);
      Bwrite(g.start, hb);
    }

    method ReadHead()
      requires block.Length == LOGSIZE && Placed(g, disk) && disk[g.start][0] <= LOGSIZE
      modifies this`n, block
      ensures n <= LOGSIZE && block[..n] == Head(g, disk)
      ensures n == disk[g.start][0] && forall i :: 0 <= i < n ==> block[i] == disk[g.start][1 + i]
    {
      var hb := disk[g.start];
      n := hb[0];
      for i := 0 to n
        invariant n == hb[0] && block[..i] == hb[1..i + 1]
      {
        block[i] := hb[1 + i];
      }
    }

    /** One round of the loop in `write_log`: copy a cached block into its log block. */
    method WriteLogBlock(tail: nat)
      requires Valid() && phase == WritingLog(tail) && tail < n && Formatted(g, disk)
      modifies this`disk, this`writes, this`phase, this`run
      ensures Valid() && phase == WritingLog(tail + 1)
      ensures Formatted(g, disk) && Abs(g, Snap()) == old(Abs(g, Snap()))
      ensures writes == old(writes) + [disk]
    {
      ghost var r := AdvanceRun(g, run);
      CopyToLog(tail);
      phase, run := WritingLog(tail + 1), r;
    }

    method CopyToLog(tail: nat)
      requires block.Length == LOGSIZE && tail < n <= LOGSIZE && n < g.size
      requires Placed(g, disk) && block[..n][tail] in cache
      modifies this`disk, this`writes
      ensures disk == LogBlock(g, old(disk), tail, cache[block[..n][tail]]) && writes == old(writes) + [disk]
      ensures disk == old(disk)[g.start + 1 + tail := cache[block[tail]]]
    {
      Bwrite(g.start + 1 + tail, cache[block[tail]]);
    }

    method WriteLog()
      requires Valid() && phase == WritingLog(0)
      modifies this`disk, this`writes, this`phase, this`run
      ensures Valid() && phase == WritingHead && Formatted(g, disk)
      ensures old(Formatted(g, disk)) && Abs(g, Snap()) == old(Abs(g, Snap()))
      ensures AllRecoverTo(old(writes), old(Durable(g, disk)))
    {
      RunFormatted(g, run);
      ghost var m := Abs(g, Snap());
      for tail := 0 to n
        invariant Valid() && phase == WritingLog(tail)
        invariant Formatted(g, disk) && Abs(g, Snap()) == m
        invariant AllRecoverTo(old(writes), m.durable)
      {
        WriteLogBlock(tail);
      }
      LogWritten();
    }

    ghost method LogWritten()
      requires Valid() && phase == WritingLog(n) && Formatted(g, disk)
      modifies this`phase, this`run
      ensures Valid() && phase == WritingHead && Formatted(g, disk) && Abs(g, Snap()) == old(Abs(g, Snap()))
    {
      var r := AdvanceRun(g, run);
      phase, run := WritingHead, r;
    }

    /** One round of the loop in `install_trans`: copy a log block home and clean its buffer. */
    method InstallLogBlock(tail: nat)
      requires Valid() && phase == Installing(tail) && tail < n && Formatted(g, disk)
      modifies this`disk, this`writes, this`phase, this`run, this`cache
      ensures Valid() && phase == Installing(tail + 1)
      ensures Formatted(g, disk) && Abs(g, Snap()) == old(Abs(g, Snap()))
      ensures writes == old(writes) + [disk]
    {
      ghost var r := AdvanceRun(g, run);
      CopyHome(tail);
      phase, run := Installing(tail + 1), r;
    }

    method CopyHome(tail: nat)
      requires block.Length == LOGSIZE && tail < n <= LOGSIZE && n < g.size && Placed(g, disk) && block[tail] < |disk|
      modifies this`disk, this`writes, this`cache
      ensures disk == InstallBlock(g, old(disk), block[..n], tail) && cache == old(cache) - {block[..n][tail]}
      ensures disk == old(disk)[block[tail] := old(disk)[g.start + 1 + tail]]
      ensures writes == old(writes) + [disk]
    {
      Bwrite(block[tail], disk[g.start + 1 + tail]);
      cache := cache - {block[tail]};
    }

    method InstallTrans()
      requires Valid() && phase == Installing(0)
      modifies this`disk, this`writes, this`phase, this`run, this`cache
      ensures Valid() && phase == Installing(n) && Formatted(g, disk)
      ensures old(Formatted(g, disk)) && Abs(g, Snap()) == old(Abs(g, Snap()))
      ensures AllRecoverTo(old(writes), old(Durable(g, disk)))
    {
      RunFormatted(g, run);
      ghost var m := Abs(g, Snap());
      for tail := 0 to n
        invariant Valid() && phase == Installing(tail)
        invariant Formatted(g, disk) && Abs(g, Snap()) == m
        invariant AllRecoverTo(old(writes), m.durable)
      {
        InstallLogBlock(tail);
      }
    }

    /** The last `write_head`, with the flag reset and the wake-up that follow it in `end_op`. */
    method ClearHead()
      requires Valid() && phase == Clearing && n == 0
      modifies this`disk, this`writes, this`phase, this`run, this`committing, this`asleep
      ensures Valid() && phase == Quiet && !committing && asleep == {} && Formatted(g, disk)
      ensures old(Formatted(g, disk)) && Abs(g, Snap()) == old(Abs(g, Snap()))
      ensures writes == old(writes) + [disk]
    {
      ghost var r := AdvanceRun(g, run);
      WriteHead();
      committing, asleep := false, {};
      phase, run := Quiet, r;
    }

    /** The tail shared by `commit` and `recover_from_log`. */
    method InstallAndClear()
      requires Valid() && phase == Installing(0)
      modifies this`disk, this`writes, this`phase, this`run, this`cache, this`n, this`committing, this`asleep
      ensures Valid() && phase == Quiet && n == 0 && cache == map[] && !committing && asleep == {}
      ensures Formatted(g, disk) && Head(g, disk) == []
      ensures old(Formatted(g, disk)) && Abs(g, Snap()) == old(Abs(g, Snap()))
      ensures AllRecoverTo(old(writes), old(Durable(g, disk)))
    {
      InstallTrans();
      ghost var w := writes;
      ForgetBlocks();
      ClearHead();
      QuietRun(g, run);
      assert writes == w + [disk] && Durable(g, disk) == old(Durable(g, disk));
    }

    method ForgetBlocks()
      requires Valid() && phase == Installing(n) && Formatted(g, disk)
      modifies this`n, this`phase, this`run
      ensures Valid() && phase == Clearing && n == 0 && Formatted(g, disk) && Abs(g, Snap()) == old(Abs(g, Snap()))
    {
      ghost var r := AdvanceRun(g, run);
      n := 0;
      phase, run := Clearing, r;
    }

    /** The `write_head` of `commit`: the block write that commits. */
    method WriteCommitRecord()
      requires Valid() && phase == WritingHead && Formatted(g, disk)
      modifies this`disk, this`writes, this`phase, this`run
      ensures Valid() && phase == Installing(0) && Formatted(g, disk)
      ensures Abs(g, Snap()) == StoreStep(old(Abs(g, Snap())), CommitAll)
      ensures writes == old(writes) + [disk]
    {
      ghost var r := AdvanceRun(g, run);
      WriteHead();
      phase, run := Installing(0), r;
    }

    /** Crash atomicity of `commit`: every block write leaves a disk that recovers to the old
        image or to the cached one, and at the end the cached one is home. */
    method Commit()
      requires Valid() && phase == WritingLog(0) && n > 0
      modifies this
      ensures Valid() && phase == Quiet && n == 0 && cache == map[] && !committing && asleep == {}
      ensures outstanding == old(outstanding) && budget == old(budget)
      ensures Formatted(g, disk) && Head(g, disk) == [] && old(Formatted(g, disk))
      ensures Abs(g, Snap()).volatile == old(Abs(g, Snap()).volatile)
      ensures Abs(g, Snap()).durable == old(Abs(g, Snap()).volatile)
      ensures old(writes) <= writes
      ensures forall k :: |old(writes)| <= k < |writes| ==>
        && Formatted(g, writes[k])
        && (Durable(g, writes[k]) == old(Abs(g, Snap()).durable)
            || Durable(g, writes[k]) == old(Abs(g, Snap()).volatile))
    {
      WriteLog();
      WriteCommitRecord();
      ghost var w := writes;
      InstallAndClear();
      assert w <= writes && forall k :: 0 <= k < |w| ==> writes[k] == w[k];
    }

    /** Recovery keeps what is durable at every block write, so it may crash and restart at will. */
    method RecoverFromLog()
      requires Valid() && phase == Booting
      modifies this, block
      ensures Valid() && phase == Quiet && n == 0 && cache == map[]
      ensures Formatted(g, disk) && Head(g, disk) == [] && old(Formatted(g, disk))
      ensures Abs(g, Snap()).durable == old(Durable(g, disk))
      ensures AllRecoverTo(old(writes), old(Durable(g, disk)))
    {
      ghost var r := AdvanceRun(g, run);
      ReadHead();
      phase, run := Installing(0), r;
      InstallAndClear();
    }

    /** One pass of the loop in `begin_op`: admitted, or asleep until the next wake-up. */
    method BeginOp(p: nat) returns (admitted: bool)
      requires Valid() && Enabled(g, Snap(), Begin(p))
      modifies this
      ensures Valid() && admitted == !MustWait(old(Snap()))
      ensures Snap() == StepBegin(old(Snap()), p)
      ensures admitted <==> !old(committing) && old(n) + (old(outstanding) + 1) * 10 <= 30
      ensures outstanding == (if admitted then old(outstanding) + 1 else old(outstanding))
      ensures asleep == (if admitted then old(asleep) else old(asleep) + {p})
      ensures n == old(n) && committing == old(committing) && disk == old(disk) && cache == old(cache)
      ensures run == Then(old(run), Begin(p), Snap())
    {
      ghost var r := CallRun(g, run, Begin(p));
      admitted := false;
      if committing {
        asleep := asleep + {p};
      } else if n + (outstanding + 1) * MAXOPBLOCKS > LOGSIZE {
        asleep := asleep + {p};
      } else {
        outstanding := outstanding + 1;
        budget := budget[p := MAXOPBLOCKS];
        admitted := true;
      }
      run := r;
    }

    /** The loop of `log_write`: absorb a block already listed, append a new one. */
    method RecordBlock(b: nat)
      requires n < block.Length
      modifies this`n, block
      ensures n <= block.Length
      ensures block[..n] == if b in old(block[..n]) then old(block[..n]) else old(block[..n]) + [b]
    {
      var i := 0;
      while i < n && block[i] != b
        invariant i <= n && b !in block[..i]
      {
        i := i + 1;
      }
      block[i] := b;
      if i == n {
        n := n + 1;
      }
    }

    /** The effect of a `log_write` that passed its checks; r is the run it lengthens. */
    method Record(ghost p: nat, b: nat, data: Block, ghost r: Run)
      requires block.Length == LOGSIZE && n < LOGSIZE && p in budget && GoodRun(g, r)
      requires r.s == Snap().(lh := if b in block[..n] then block[..n] else block[..n] + [b],
                              cache := cache[b := data],
                              budget := budget[p := budget[p] - 1])
      modifies this`n, this`cache, this`budget, this`run, block
      ensures Valid() && run == r
    {
      RecordBlock(b);
      cache := cache[b := data];
      budget := budget[p := budget[p] - 1];
      run := r;
    }

    /** `log_write` of an updated buffer, with its absorption loop and its two panics. */
    method LogWrite(ghost p: nat, b: nat, data: Block) returns (panicked: bool)
      requires Valid() && Enabled(g, Snap(), Write(p, b, data))
      modifies this`n, this`cache, this`budget, this`run, block
      ensures Valid()
      ensures panicked <==> old(n) >= LOGSIZE || old(n) >= g.size - 1
      ensures panicked ==> Snap() == old(Snap())
      ensures !panicked ==> run == Then(old(run), Write(p, b, data), Snap())
      ensures !panicked ==> cache == old(cache)[b := data] && n <= block.Length
      ensures !panicked ==> block[..n] == if b in old(block[..n]) then old(block[..n]) else old(block[..n]) + [b]
    {
      if n >= LOGSIZE || n >= g.size - 1 {
        return true;
      }
      ghost var r := WriteRun(g, run, p, b, data);
      if outstanding < 1 {
        return true;
      }
      Record(p, b, data, r);
      return false;
    }

    /** `end_op`: never panics, and the last operation out makes everything cached durable. */
    method EndOp(p: nat) returns (panicked: bool)
      requires Valid() && Enabled(g, Snap(), End(p))
      modifies this
      ensures Valid() && !panicked && phase == Quiet && budget == old(budget) - {p}
      ensures asleep == {} && outstanding == old(outstanding) - 1
      ensures old(Formatted(g, disk)) && Formatted(g, disk)
      ensures Abs(g, Snap()).volatile == old(Abs(g, Snap()).volatile)
      ensures outstanding == 0 ==> Abs(g, Snap()).durable == Abs(g, Snap()).volatile
      ensures outstanding != 0 ==> Abs(g, Snap()).durable == old(Abs(g, Snap()).durable)
    {
      ghost var r := CallRun(g, run, End(p));
      outstanding := outstanding - 1;
      budget := budget - {p};
      panicked := committing;
      if outstanding == 0 && n > 0 {
        committing := true;
        phase, run := WritingLog(0), r;
        Commit();
      } else {
        asleep, run := {}, r;
        if outstanding == 0 {
          QuietStore(g, run);
        }
      }
    }
  }
}
