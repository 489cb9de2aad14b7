/**
  `fork`, `exit`, `wait`, `lwp_create`, `lwp_join` (src/process.c), `sleep`, `wakeup`, `giveup_cpu`,
  `timeslice_yield` (src/schedule.c) and the priority scheduler (src/scheduler_class.c:135-206) with
  their scans over the process table, as runs of `KernelState`.
 */
module KernelCalls {
  import opened KernelState

  /** What a `wakeup` is aimed at: sleepers in the `wait` or `lwp_join` of one process, or on an event. */
  datatype Target = Parent(slot: nat) | Sleepers(id: nat)

  /** What one pass through `wait` or `lwp_join` comes to. */
  datatype WaitResult = Reaped(pid: nat) | NoChild | Asleep

  const ETERNAL: int := -255

  /** The process is as it was but for its parent, or was woken. */
  predicate SameOrWoken(p: Proc, q: Proc)
  {
    || q == p.(parent := q.parent)
    || (p.stat.Sleeping? && q == p.(stat := Ready, stamp := q.stamp, parent := q.parent))
  }

  /** Nothing but parents changed, and some sleepers were woken. */
  ghost predicate OnlyWoken(ps: seq<Proc>, ps': seq<Proc>)
  {
    |ps'| == |ps| && forall j :: 0 <= j < |ps| ==> SameOrWoken(ps[j], ps'[j])
  }

  /** Whether p is asleep in `wait` or `lwp_join`. */
  predicate InWait(p: Proc)
  {
    p.stat.Sleeping? && (p.chan == OnWait || p.chan == OnJoin)
  }

  predicate AsleepOn(p: Proc, chan: Chan)
  {
    p.stat.Sleeping? && p.chan == chan
  }

  /** A `wakeup` on an event finds everybody who went to sleep on it, and one aimed at a parent finds
      it in `wait` and in `lwp_join`. */
  lemma SleepersAreFound(k: Kernel, id: nat, chan: Chan)
    requires Enabled(k, KernelState.Sleep(chan))
    ensures chan == OnEvent(id) ==> Matches(Step(k, KernelState.Sleep(chan)).procs[k.cur], k.cur, Sleepers(id))
    ensures chan == OnWait || chan == OnJoin ==>
      Matches(Step(k, KernelState.Sleep(chan)).procs[k.cur], k.cur, Parent(k.cur))
  {
    SleepDoes(k, chan);
  }

  predicate Matches(p: Proc, i: nat, t: Target)
  {
    p.stat.Sleeping? &&
    match t
    case Parent(slot) => i == slot && (p.chan == OnWait || p.chan == OnJoin)
    case Sleepers(id) => p.chan == OnEvent(id)
  }

  lemma Extend(r: Run, e: Event) returns (r': Run)
    requires Reached(r) && Enabled(r.k, e)
    ensures r' == Then(r, e, Step(r.k, e)) && Reached(r') && Shape(r'.k)
  {
    r' := Then(r, e, Step(r.k, e));
    ReachedIsRun(r);
    ReachedIsRun(r');
    RunKeepsInv(r');
  }

  lemma ShapeOf(r: Run)
    requires Reached(r)
    ensures Shape(r.k)
  {
    ReachedIsRun(r);
    RunKeepsInv(r);
  }

  lemma ProcFacts(r: Run, i: nat)
    requires Reached(r) && i < NPROC
    ensures Shape(r.k)
    ensures !r.k.procs[i].stat.Unused? ==> 0 <= r.k.procs[i].dpri - MAX_RT_PRI < BUCKETS
    ensures r.k.procs[i].stat.Running? <==> i == r.k.cur
    ensures !r.k.procs[i].stat.Unused? && i != r.k.init ==>
      r.k.procs[i].parent < NPROC && r.k.procs[i].parent != i && Live(r.k.procs[r.k.procs[i].parent])
    ensures r.k.procs[i].stat.Unused? || i == r.k.init ==> r.k.procs[i].parent == NPROC
    ensures Live(r.k.procs[r.k.init])
  {
    ReachedIsRun(r);
    RunKeepsInv(r);
    assert ParentOk(r.k, i);
  }

  lemma SlotFacts(r: Run)
    requires Reached(r) && r.k.empty != []
    ensures Shape(r.k) && r.k.empty[0] < NPROC && r.k.procs[r.k.empty[0]].stat.Unused? && 1 <= r.k.nextpid
  {
    ReachedIsRun(r);
    RunKeepsInv(r);
  }

  /** The parent of a child of the running process: a thread's threads belong to its parent. */
  function ForkParent(k: Kernel, thread: bool): (p: nat)
    ensures !thread ==> p == k.cur
    ensures k.cur < |k.procs| && thread ==> p == if k.procs[k.cur].thread then k.procs[k.cur].parent else k.cur
  {
    if k.cur < |k.procs| && thread && k.procs[k.cur].thread then k.procs[k.cur].parent else k.cur
  }

  /** A new process, ready to run with the default priority. */
  predicate IsChild(p: Proc, pid: nat, parent: nat, thread: bool)
  {
    && p.stat.Ready? && p.pid == pid && p.parent == parent && p.thread == thread
    && p.nice == 0 && p.dpri == 125 && p.slice == 400 && p.avgslp == 0
  }

  /** What is left of the running process's time slice. */
  ghost function SliceLeft(k: Kernel): int
  {
    if k.cur < |k.procs| then k.procs[k.cur].slice else ETERNAL
  }

  lemma QueueFacts(r: Run, b: nat)
    requires Reached(r) && b < BUCKETS
    ensures Shape(r.k)
    ensures forall i :: 0 <= i < |r.k.ready[b]| ==> r.k.ready[b][i] < NPROC && r.k.procs[r.k.ready[b][i]].stat.Ready?
  {
    ReachedIsRun(r);
    RunKeepsInv(r);
    assert BucketOk(r.k.procs, r.k.ready[b], b, r.k.clock);
  }

  /** The parent that `lwp_create` gives to a thread created by a thread. */
  lemma ThreadParent(r: Run)
    requires Reached(r) && r.k.cur < NPROC
    ensures Shape(r.k) && Live(r.k.procs[r.k.cur])
    ensures r.k.procs[r.k.cur].thread ==>
      r.k.procs[r.k.cur].parent < NPROC && Live(r.k.procs[r.k.procs[r.k.cur].parent])
  {
    ProcFacts(r, r.k.cur);
    InitIsNoThread(r);
  }

  lemma InitStep(k: Kernel, e: Event)
    requires Enabled(k, e) && Table(k) && Live(k.procs[k.init])
    ensures Step(k, e).procs[k.init].thread == k.procs[k.init].thread && Step(k, e).init == k.init
  {
  }

  lemma {:induction false} InitIsNoThread(r: Run)
    requires Reached(r)
    ensures Shape(r.k) && !r.k.procs[r.k.init].thread
  {
    ShapeOf(r);
    ReachedIsRun(r);
    if r.Then? {
      ReachedIsRun(r.prev);
      RunKeepsInv(r.prev);
      InitIsNoThread(r.prev);
      InitStep(r.prev.k, r.e);
    }
  }

  class Machine {
    var procs: seq<Proc>
    var empty: seq<nat>
    var ready: seq<seq<nat>>
    var nextpid: nat
    var cur: nat
    const init: nat
    var clock: nat  // counts arrivals in the ready queues; not part of the original state
    ghost var run: Run

    ghost predicate Valid()
      reads this
    {
      Reached(run) && Shape(run.k) && run.k == Kernel(procs, empty, ready, nextpid, cur, init, clock)
    }

    /** `esinit`, `rdinit` and `userinit`: init alone, ready in slot 0. */
    constructor ()
      ensures Valid() && run == Start(run.k)
    {
      var boot := Proc(Ready, 1, NPROC, false, NoChan, false, 0, 120, 125, 0, 400, 0);
      init, cur, clock, nextpid := 0, NPROC, 1, 2;
      var unused := KernelState.Reaped(boot);
      procs := seq(NPROC, i => if i == 0 then boot else unused);
      empty := seq(NPROC - 1, i => i + 1);
      ready := seq(BUCKETS, b => if b == 25 then [0] else []);
      new;
      run := Start(Kernel(procs, empty, ready, nextpid, cur, init, clock));
      ReachedIsRun(run);
    }

    /** The body of the priority scheme: the first process of the first queue that is not empty. */
    method SchedPriority(dt: nat) returns (found: bool)
      requires Valid() && cur == NPROC
      modifies this
      ensures Valid()
      ensures !found ==> run == old(run) && forall q :: 0 <= q < |procs| ==> !procs[q].stat.Ready?
      ensures found ==> cur < NPROC <= |old(procs)| && old(procs)[cur].stat.Ready? && run.Then? && run.prev == old(run)
      ensures found ==> cur < |procs| && procs[cur].stat.Running? && procs[cur].pid == old(procs)[cur].pid
      ensures found ==> forall q :: 0 <= q < |old(procs)| && old(procs)[q].stat.Ready? ==>
        old(procs)[cur].dpri < old(procs)[q].dpri
        || (old(procs)[cur].dpri == old(procs)[q].dpri && old(procs)[cur].stamp <= old(procs)[q].stamp)
    {
      ShapeOf(run);
      var b := 0;
      while b < BUCKETS && ready[b] == []
        invariant b <= BUCKETS && forall a :: 0 <= a < b ==> ready[a] == []
      {
        b := b + 1;
      }
      if b == BUCKETS {
        forall q: nat | q < NPROC
          ensures !procs[q].stat.Ready?
        {
          ReachedIsRun(run);
          NothingQueuedNothingReady(run, q);
        }
        return false;
      }
      QueueFacts(run, b);
      forall q: nat | q < NPROC && procs[q].stat.Ready?
        ensures procs[ready[b][0]].dpri < procs[q].dpri
                || (procs[ready[b][0]].dpri == procs[q].dpri && procs[ready[b][0]].stamp <= procs[q].stamp)
      {
        ReachedIsRun(run);
        DispatchPicksBest(run, b, dt, q);
      }
      SwitchTo(b, dt);
      found := true;
    }

    /** Take the head of queue b and run it; a process that was inside `sleep` finishes that call. */
    method SwitchTo(b: nat, dt: nat)
      requires Valid() && Enabled(run.k, Dispatch(b, dt))
      modifies this
      ensures Valid() && run == Then(old(run), Dispatch(b, dt), Step(old(run.k), Dispatch(b, dt)))
      ensures cur == old(ready[b][0]) && cur < |procs|
      ensures procs[cur].stat.Running? && procs[cur].pid == old(procs)[cur].pid
    {
      ghost var r := Extend(run, Dispatch(b, dt));
      var p := ready[b][0];
      ready := ready[b := ready[b][1..]];
      procs := procs[p := Dispatched(procs[p], dt)];
      cur := p;
      run := r;
    }

    /** Put one sleeper into its ready queue. */
    method WakeOne(p: nat)
      requires Valid() && p < NPROC <= |procs| && procs[p].stat.Sleeping?
      modifies this`procs, this`ready, this`clock, this`run
      ensures Valid() && run == Then(old(run), Wake(p), run.k)
      ensures procs == old(procs)[p := procs[p]] && procs[p] == old(procs[p]).(stat := Ready, stamp := procs[p].stamp)
    {
      ProcFacts(run, p);
      ghost var r := Extend(run, Wake(p));
      var b := procs[p].dpri - MAX_RT_PRI;
      procs := procs[p := procs[p].(stat := Ready)];
      ready := ready[b := ready[b] + [p]];
      procs := procs[p := procs[p].(stamp := clock)];
      clock := clock + 1;
      run := r;
    }

    /** `wakeup`: every sleeper it is aimed at becomes ready, nobody else changes. */
    method Wakeup(t: Target)
      requires Valid()
      modifies this`procs, this`ready, this`clock, this`run
      ensures Valid() && |procs| == |old(procs)| == NPROC
      ensures forall i :: 0 <= i < NPROC ==>
        if Matches(old(procs)[i], i, t) then procs[i] == old(procs)[i].(stat := Ready, stamp := procs[i].stamp)
        else procs[i] == old(procs)[i]
    {
      ShapeOf(run);
      for i := 0 to NPROC
        invariant Valid() && |procs| == |old(procs)| == NPROC
        invariant forall j :: i <= j < NPROC ==> procs[j] == old(procs)[j]
        invariant forall j :: 0 <= j < i ==>
          if Matches(old(procs)[j], j, t) then procs[j] == old(procs)[j].(stat := Ready, stamp := procs[j].stamp)
          else procs[j] == old(procs)[j]
      {
        if Matches(procs[i], i, t) {
          WakeOne(i);
        }
      }
    }

    /** Append p to the queue of its priority: the enqueue function of the scheme. */
    method EnqueueTail(p: nat)
      requires p < |procs| && 0 <= procs[p].dpri - MAX_RT_PRI < |ready|
      modifies this`procs, this`ready, this`clock
      ensures var k := Enqueue(old(Kernel(procs, empty, ready, nextpid, cur, init, clock)), p);
        procs == k.procs && ready == k.ready && clock == k.clock
    {
      var b := procs[p].dpri - MAX_RT_PRI;
      ready := ready[b := ready[b] + [p]];
      procs := procs[p := procs[p].(stamp := clock)];
      clock := clock + 1;
    }

    /** `fork` (or `lwp_create` with thread set) for the running process.  `copied` tells whether
        `copyuvm` succeeded.  Returns the child's pid, or 0 for the failure the caller sees as -1. */
    method Fork(thread: bool, copied: bool) returns (pid: nat)
      requires Valid() && cur < NPROC && (thread ==> copied)
      modifies this
      ensures Valid() && (pid == 0 <==> old(empty) == [] || !copied)
      ensures old(empty) == [] ==> run == old(run)
      ensures old(empty) != [] && !copied ==> run == Then(old(run), ForkFails, run.k)
      ensures pid != 0 ==> pid == old(nextpid)
      ensures pid != 0 ==> run == Then(old(run), KernelState.Fork(ForkParent(old(run.k), thread), thread), run.k)
      ensures pid != 0 ==> old(empty)[0] < |procs|
      ensures pid != 0 ==> IsChild(procs[old(empty)[0]], pid, ForkParent(old(run.k), thread), thread)
    {
      pid := 0;
      if empty != [] {
        SlotFacts(run);
        if copied {
          pid := ForkChild(thread);
        } else {
          ForkUndone();
        }
      }
    }

    method ForkUndone()
      requires Valid() && cur < NPROC && empty != []
      modifies this
      ensures Valid() && run == Then(old(run), ForkFails, run.k)
    {
      SlotFacts(run);
      var p := empty[0];
      ghost var r := Extend(run, ForkFails);
      var k := Kernel(procs, empty, ready, nextpid, cur, init, clock);
      procs := procs[p := NewProc(k, NPROC, false).(stat := Unused)];
      empty := empty[1..] + [p];
      nextpid := nextpid + 1;
      run := r;
    }

    method ForkChild(thread: bool) returns (pid: nat)
      requires Valid() && cur < NPROC && empty != []
      modifies this
      ensures Valid() && pid == old(nextpid)
      ensures run == Then(old(run), KernelState.Fork(ForkParent(old(run.k), thread), thread), run.k)
      ensures old(empty)[0] < |procs| && IsChild(procs[old(empty)[0]], pid, ForkParent(old(run.k), thread), thread)
    {
      SlotFacts(run);
      ThreadParent(run);
      var p := empty[0];
      var parent := if thread && procs[cur].thread then procs[cur].parent else cur;
      ghost var r := Extend(run, KernelState.Fork(parent, thread));
      pid := nextpid;
      procs := procs[p := NewProc(Kernel(procs, empty, ready, nextpid, cur, init, clock), parent, thread)];
      empty := empty[1..];
      nextpid := nextpid + 1;
      EnqueueTail(p);
      run := r;
    }

    /** The running process goes to sleep on an event. */
    method Sleep(id: nat)
      requires Valid() && cur < NPROC
      modifies this
      ensures Valid()
      ensures run == Then(old(run), KernelState.Sleep(OnEvent(id)), Step(old(run.k), KernelState.Sleep(OnEvent(id))))
      ensures cur == 64 && |procs| == |old(procs)| == 64 && AsleepOn(procs[old(cur)], OnEvent(id))
      ensures forall i :: 0 <= i < 64 && i != old(cur) ==> procs[i] == old(procs)[i]
    {
      SleepOn(OnEvent(id));
    }

    method SleepOn(chan: Chan)
      requires Valid() && Enabled(run.k, KernelState.Sleep(chan))
      modifies this
      ensures Valid() && run == Then(old(run), KernelState.Sleep(chan), Step(old(run.k), KernelState.Sleep(chan)))
      ensures cur == 64 && |procs| == |old(procs)| == 64 && AsleepOn(procs[old(cur)], chan)
      ensures forall i :: 0 <= i < 64 && i != old(cur) ==> procs[i] == old(procs)[i]
    {
      ghost var r := Extend(run, KernelState.Sleep(chan));
      procs := procs[cur := procs[cur].(stat := Sleeping, chan := chan, slept := true)];
      cur := NPROC;
      run := r;
    }

    method ReparentOne(c: nat)
      requires Valid() && Enabled(run.k, Reparent(c))
      modifies this`procs, this`run
      ensures Valid() && procs == old(procs)[c := old(procs)[c].(parent := init)]
    {
      ghost var r := Extend(run, Reparent(c));
      procs := procs[c := procs[c].(parent := init)];
      run := r;
    }

    /** Hand child c to init, waking init for a zombie.  The original sets the parent first; the two
        updates touch different processes and fields. */
    method AdoptOne(c: nat)
      requires Valid() && cur < NPROC && cur != init && c < NPROC && |procs| == NPROC && procs[c].parent == cur
      modifies this`procs, this`ready, this`clock, this`run
      ensures Valid() && OnlyWoken(old(procs), procs)
      ensures forall i :: 0 <= i < NPROC ==> procs[i].parent == if i == c then init else old(procs)[i].parent
    {
      ShapeOf(run);
      if procs[c].stat.Zombie? {
        Wakeup(Parent(init));
      }
      ProcFacts(run, c);
      ProcFacts(run, init);
      ReparentOne(c);
    }

    /** The scan of `exit` over its children. */
    method AdoptChildren()
      requires Valid() && cur < NPROC && cur != init
      modifies this`procs, this`ready, this`clock, this`run
      ensures Valid() && |procs| == NPROC && OnlyWoken(old(procs), procs)
      ensures forall i :: 0 <= i < NPROC ==>
        procs[i].parent == if old(procs)[i].parent == cur then init else old(procs)[i].parent
    {
      ShapeOf(run);
      for i := 0 to NPROC
        invariant Valid() && |procs| == NPROC && OnlyWoken(old(procs), procs)
        invariant forall j :: 0 <= j < i ==>
          procs[j].parent == if old(procs)[j].parent == cur then init else old(procs)[j].parent
        invariant forall j :: i <= j < NPROC ==> procs[j].parent == old(procs)[j].parent
      {
        if procs[i].parent == cur {
          AdoptOne(i);
        }
      }
    }

    /** `exit` of the running process, up to the scheduler. */
    method ExitProc() returns (panicked: bool)
      requires Valid() && cur < NPROC
      modifies this
      ensures panicked <==> old(cur) == init
      ensures panicked ==> run == old(run) && Valid()
      ensures !panicked ==> Valid() && cur == NPROC && |procs| == NPROC && procs[old(cur)].stat.Zombie?
      ensures !panicked ==> forall i :: 0 <= i < NPROC ==> procs[i].parent != old(cur)
      ensures !panicked && old(cur) < |old(procs)| ==>
        var p := old(procs)[old(cur)].parent; p < 64 <= |old(procs)| && (InWait(old(procs)[p]) ==> procs[p].stat.Ready?)
      ensures !panicked ==> forall i :: 0 <= i < |old(procs)| == |procs| && i != old(cur) ==>
        SameOrWoken(old(procs)[i], procs[i])
    {
      if cur == init {
        return true;
      }
      ProcFacts(run, cur);
      var parent := procs[cur].parent;
      Wakeup(Parent(parent));
      assert !InWait(procs[parent]) && procs[cur].parent == parent;
      ProcFacts(run, cur);
      AdoptChildren();
      assert !InWait(procs[parent]) && procs[cur].parent == parent;
      BecomeZombie();
      panicked := false;
    }

    method BecomeZombie()
      requires Valid() && Enabled(run.k, Exit)
      modifies this`procs, this`cur, this`run
      ensures Valid() && cur == NPROC && procs == old(procs)[old(cur) := old(procs)[old(cur)].(stat := Zombie)]
    {
      ghost var r := Extend(run, Exit);
      procs := procs[cur := procs[cur].(stat := Zombie)];
      cur := NPROC;
      run := r;
    }

    method ReapOne(c: nat)
      requires Valid() && Enabled(run.k, Reap(c))
      modifies this
      ensures Valid() && run == Then(old(run), Reap(c), Step(old(run.k), Reap(c)))
    {
      ghost var r := Extend(run, Reap(c));
      procs := procs[c := KernelState.Reaped(procs[c])];
      empty := empty + [c];
      run := r;
    }

    /** One pass of `wait` (or of `lwp_join`, which looks at threads only). */
    method WaitScan(join: bool) returns (result: WaitResult)
      requires Valid() && cur < NPROC
      modifies this
      ensures Valid()
      ensures result.Reaped? ==> run.Then? && run.prev == old(run) && run.e.Reap?
      ensures result.Reaped? ==> run.e.c < |old(procs)| && old(procs)[run.e.c].pid == result.pid
      ensures result.Reaped? ==>
        var p := old(procs)[run.e.c]; p.stat.Zombie? && p.parent == old(cur) && (join ==> p.thread)
      ensures result.Reaped? ==> forall d :: 0 <= d < run.e.c && old(procs)[d].parent == old(cur) ==>
        !old(procs)[d].stat.Zombie? || (join && !old(procs)[d].thread)
      ensures result.NoChild? ==> run == old(run)
      ensures result.NoChild? ==> forall c :: 0 <= c < |procs| ==>
        !(procs[c].parent == cur && (join ==> procs[c].thread))
      ensures result.Asleep? ==>
        exists c :: 0 <= c < |old(procs)| && old(procs)[c].parent == old(cur) && (join ==> old(procs)[c].thread)
      ensures result.Asleep? ==> run == Then(old(run), KernelState.Sleep(if join then OnJoin else OnWait), run.k)
      ensures result.Asleep? ==> old(cur) < |procs| && AsleepOn(procs[old(cur)], if join then OnJoin else OnWait)
      ensures result.Reaped? ==> run.e.c < |procs| && procs[run.e.c].stat.Unused? && empty == old(empty) + [run.e.c]
    {
      ShapeOf(run);
      var haveKid := false;
      for c := 0 to NPROC
        invariant Valid() && run == old(run) && cur == old(cur) && procs == old(procs)
        invariant forall d :: 0 <= d < c && procs[d].parent == cur && (join ==> procs[d].thread) ==>
          haveKid && !procs[d].stat.Zombie?
        invariant haveKid ==> exists d :: 0 <= d < NPROC && procs[d].parent == cur && (join ==> procs[d].thread)
      {
        if procs[c].parent == cur && (join ==> procs[c].thread) {
          haveKid := true;
          if procs[c].stat.Zombie? {
            var pid := procs[c].pid;
            ReapOne(c);
            return WaitResult.Reaped(pid);
          }
        }
      }
      if !haveKid {
        return NoChild;
      }
      SleepOn(if join then OnJoin else OnWait);
      result := Asleep;
    }

    /** `giveup_cpu` under the priority scheme: enter the running process in the queue of its old
        priority, then find it there, recompute its priority and move it to the right queue. */
    method GiveUpCpu()
      requires Valid() && cur < NPROC
      modifies this
      ensures Valid() && run == Then(old(run), Yield, Step(old(run.k), Yield))
    {
      ProcFacts(run, cur);
      ghost var r := Extend(run, Yield);
      var b := procs[cur].dpri - MAX_RT_PRI;
      QueueFacts(run, b);
      MoveToNewQueue(b);
      cur := NPROC;
      run := r;
    }

    method MoveToNewQueue(b: nat)
      requires cur < |procs| && b < |ready| == BUCKETS && cur !in ready[b]
      modifies this`procs, this`ready, this`clock
      ensures var k := old(Kernel(procs, empty, ready, nextpid, cur, init, clock));
        var k' := Enqueue(k.(procs := k.procs[cur := Yielding(k.procs[cur])]), cur);
        procs == k'.procs && ready == k'.ready && clock == k'.clock
    {
      procs := procs[cur := procs[cur].(stat := Ready)];
      ghost var before, all := ready[b], ready;
      ready := ready[b := ready[b] + [cur]];
      RemoveFirst(b, cur, before);
      assert ready == all;
      var p := procs[cur];
      p := p.(spri := StaticPri(p.nice), slice := TimeSlice(StaticPri(p.nice)));
      p := p.(dpri := DynamicPri(p.spri, Bonus(p.avgslp)));
      procs := procs[cur := p];
      EnqueueTail(cur);
    }

    /** The search and removal at the start of the scheme's `after` function. */
    method RemoveFirst(b: nat, p: nat, ghost before: seq<nat>)
      requires b < |ready| && ready[b] == before + [p] && p !in before
      modifies this`ready
      ensures ready == old(ready)[b := before]
    {
      var i := 0;
      while ready[b][i] != p
        invariant i <= |before| && ready == old(ready)
        decreases |before| - i
      {
        i := i + 1;
      }
      assert i == |before|;
      assert ready[b][..i] + ready[b][i + 1..] == before;
      ready := ready[b := ready[b][..i] + ready[b][i + 1..]];
    }

    /** The timer's `timeslice_yield`. */
    method TimesliceYield()
      requires Valid() && cur < NPROC
      modifies this
      ensures Valid()
      ensures old(SliceLeft(run.k)) == ETERNAL ==> run == old(run)
      ensures old(SliceLeft(run.k)) != ETERNAL && old(SliceLeft(run.k)) > 10 ==> run == Then(old(run), Tick, run.k)
      ensures old(SliceLeft(run.k)) != ETERNAL && old(SliceLeft(run.k)) <= 10 ==>
        run.Then? && run.e == Yield && run.prev.Then? && run.prev.e == Tick && run.prev.prev == old(run)
    {
      ShapeOf(run);
      if procs[cur].slice == ETERNAL {
        return;
      }
      ghost var r := Extend(run, Tick);
      procs := procs[cur := Ticked(procs[cur])];
      run := r;
      if procs[cur].slice <= 0 {
        GiveUpCpu();
      }
    }

    /** `__incnice`. */
    method IncNice(n: int) returns (ok: bool)
      requires Valid() && cur < NPROC
      modifies this
      ensures Valid() && run == Then(old(run), Renice(n), run.k) && cur == old(cur) && cur < |procs| == |old(procs)|
      ensures ok <==> -MAX_NICE <= old(procs[cur].nice) + n <= MAX_NICE
      ensures procs[cur].nice == if ok then old(procs[cur].nice) + n else old(procs[cur].nice)
    {
      ShapeOf(run);
      ghost var r := Extend(run, Renice(n));
      var aim := procs[cur].nice + n;
      ok := -MAX_NICE <= aim <= MAX_NICE;
      if ok {
        procs := procs[cur := procs[cur].(nice := aim)];
      }
      run := r;
    }
  }
}
