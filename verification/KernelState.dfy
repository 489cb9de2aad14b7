/**
  Processes and the bucketed priority scheduler (src/process.c, src/schedule.c,
  src/scheduler_class.c, src/proc.h) as atomic steps on the process table, the queue of empty slots
  and the forty ready queues.

  A kernel call runs unpreempted up to its next sleep.  The priority scheme is selected throughout
  and `kill` is left out: it makes a sleeper READY without entering it in a queue
  (src/process.c:265-266).
 */
module KernelState {
  import opened Common

  const NPROC: nat := 64
  const BUCKETS: nat := 40
  const MAX_RT_PRI: int := 100
  const PRI_NUM: int := 140
  const MIN_TIMESLICE: int := 100
  const MAX_AVGSLP: int := 100
  const MAX_NICE: int := 15

  // ----- priorities (src/proc.h) -----

  /** Division as in C: towards zero. */
  function TruncDiv(a: int, b: nat): (r: int)
    requires b > 0
  {
    if a >= 0 then a / b else -((-a) / b)
  }

  function StaticPri(nice: int): (r: int) { MAX_RT_PRI + nice + 20 }

  function TimeSlice(spri: int): (r: int)
    ensures r >= MIN_TIMESLICE
  {
    if spri > 120 then Max((PRI_NUM - spri) * 5, MIN_TIMESLICE) else Max((PRI_NUM - spri) * 20, MIN_TIMESLICE)
  }

  function Bonus(avgslp: int): (r: int) { TruncDiv(avgslp, 10) }

  function DynamicPri(spri: int, bonus: int): (r: int)
    ensures MAX_RT_PRI <= r < PRI_NUM
  {
    Max(MAX_RT_PRI, Min(spri - bonus + 5, PRI_NUM - 1))
  }

  /** The dynamic priority is 125 plus the nice value, less a tenth of the sleep average towards zero,
      cut off at 100 and 139. */
  lemma DynamicPriIs(nice: int, avgslp: int)
    ensures var d, b := DynamicPri(StaticPri(nice), Bonus(avgslp)), Bonus(avgslp);
      && (avgslp >= 0 ==> 10 * b <= avgslp < 10 * b + 10) && (avgslp <= 0 ==> 10 * b - 10 < avgslp <= 10 * b)
      && d == if 125 + nice - b < 100 then 100 else if 125 + nice - b > 139 then 139 else 125 + nice - b
  {
  }

  /** What the macros come to for the nice values a process can have: above the default the slice
      is always the shortest. */
  lemma SliceOfNice(nice: int)
    requires -MAX_NICE <= nice <= MAX_NICE
    ensures TimeSlice(StaticPri(nice)) == if nice <= 0 then 400 - 20 * nice else MIN_TIMESLICE
  {
  }

  /** Nicer processes get no better priority and no longer slice; sleepers get no worse priority. */
  lemma PrioritiesAreMonotone(nice: int, nice': int, avgslp: int, avgslp': int)
    requires nice <= nice' && avgslp' <= avgslp
    ensures TimeSlice(StaticPri(nice')) <= TimeSlice(StaticPri(nice))
    ensures DynamicPri(StaticPri(nice), Bonus(avgslp)) <= DynamicPri(StaticPri(nice'), Bonus(avgslp'))
  {
  }

  /** `p_avgslp` after a sleep of dt ticks, in the mixed signed and unsigned arithmetic of `sleep`:
      tick0 - ticks is -dt in 32 bits, and the minimum is taken unsigned. */
  function AvgAfterSleep(avgslp: int, dt: nat): (r: int)
    ensures 0 <= r <= MAX_AVGSLP
  {
    Min((avgslp - dt) % UINT, MAX_AVGSLP)
  }

  /** The sleep average falls while a process sleeps, until it would turn negative; then it jumps
      to the maximum. */
  lemma SleepAverage(avgslp: int, dt: nat)
    requires -50 <= avgslp <= MAX_AVGSLP && dt < UINT / 2
    ensures AvgAfterSleep(avgslp, dt) == if dt <= avgslp then avgslp - dt else MAX_AVGSLP
  {
  }

  // ----- the process table -----

  datatype Stat = Unused | Sleeping | Ready | Running | Zombie

  /** What a process sleeps on: its own table entry in `wait` or `lwp_join`, or some event. */
  datatype Chan = NoChan | OnWait | OnJoin | OnEvent(id: nat)

  /** `parent` is a slot number, or NPROC for none.  `slept` marks a process that is still inside
      `sleep`; `stamp` is the time it was entered in a ready queue. */
  datatype Proc = Proc(
    stat: Stat, pid: nat, parent: nat, thread: bool, chan: Chan, slept: bool,
    nice: int, spri: int, dpri: int, avgslp: int, slice: int, stamp: nat)

  datatype Kernel = Kernel(
    procs: seq<Proc>, empty: seq<nat>, ready: seq<seq<nat>>, nextpid: nat, cur: nat, init: nat, clock: nat)

  // ----- the life-cycle invariant -----

  ghost predicate Shape(k: Kernel)
  {
    |k.procs| == NPROC && |k.ready| == BUCKETS && k.init < NPROC && k.cur <= NPROC
  }

  /** A slot is unused if and only if it is in the queue of empty slots, exactly once. */
  ghost predicate SlotsOk(k: Kernel)
    requires Shape(k)
  {
    && (forall i :: 0 <= i < |k.empty| ==> k.empty[i] < NPROC && k.procs[k.empty[i]].stat.Unused?)
    && (forall i, j :: 0 <= i < j < |k.empty| ==> k.empty[i] != k.empty[j])
    && (forall i :: 0 <= i < NPROC && k.procs[i].stat.Unused? ==> i in k.empty)
  }

  ghost predicate PidsOk(k: Kernel)
    requires Shape(k)
  {
    && (forall i :: 0 <= i < NPROC && !k.procs[i].stat.Unused? ==> 1 <= k.procs[i].pid < k.nextpid)
    && (forall i, j :: 0 <= i < j < NPROC && !k.procs[i].stat.Unused? && !k.procs[j].stat.Unused? ==>
          k.procs[i].pid != k.procs[j].pid)
  }

  /** At most one process runs. */
  ghost predicate CurOk(k: Kernel)
    requires Shape(k)
  {
    forall i :: 0 <= i < NPROC ==> (k.procs[i].stat.Running? <==> i == k.cur)
  }

  ghost predicate Live(p: Proc) { !p.stat.Unused? && !p.stat.Zombie? }

  ghost predicate ParentOk(k: Kernel, i: nat)
    requires Shape(k) && i < NPROC
  {
    var p := k.procs[i];
    if p.stat.Unused? || i == k.init then p.parent == NPROC
    else p.parent < NPROC && Live(k.procs[p.parent]) && p.parent != i
  }

  /** Every process but init has a live parent. */
  ghost predicate ParentsOk(k: Kernel)
    requires Shape(k)
  {
    Live(k.procs[k.init]) && forall i: nat {:trigger ParentOk(k, i)} :: i < NPROC ==> ParentOk(k, i)
  }

  /** Nobody sleeps in `wait` beside a zombie child, nor in `lwp_join` beside a zombie thread. */
  ghost predicate WaitOk(k: Kernel)
    requires Shape(k)
  {
    forall i, c :: 0 <= i < NPROC && 0 <= c < NPROC && k.procs[i].stat.Sleeping?
                   && k.procs[c].parent == i && k.procs[c].stat.Zombie? ==>
      k.procs[i].chan != OnWait && (k.procs[c].thread ==> k.procs[i].chan != OnJoin)
  }

  // ----- the scheduling invariant -----

  ghost predicate InBucket(p: Proc, b: nat, clock: nat)
  {
    p.stat.Ready? && p.dpri == MAX_RT_PRI + b && p.stamp < clock
  }

  /** The queue of priority 100 + b holds ready processes of that priority in order of arrival. */
  ghost predicate BucketOk(procs: seq<Proc>, q: seq<nat>, b: nat, clock: nat)
  {
    && (forall i :: 0 <= i < |q| ==> q[i] < |procs| && InBucket(procs[q[i]], b, clock))
    && (forall i, j :: 0 <= i < j < |q| ==> procs[q[i]].stamp < procs[q[j]].stamp)
  }

  ghost predicate Queued(procs: seq<Proc>, ready: seq<seq<nat>>, p: nat)
    requires p < |procs| && |ready| == BUCKETS
  {
    procs[p].stat.Ready? ==>
      MAX_RT_PRI <= procs[p].dpri < PRI_NUM && p in ready[procs[p].dpri - MAX_RT_PRI]
  }

  /** Every ready process is in the queue of its dynamic priority. */
  ghost predicate QueuesIn(procs: seq<Proc>, ready: seq<seq<nat>>, clock: nat)
    requires |procs| == NPROC && |ready| == BUCKETS
  {
    && (forall b: nat :: b < BUCKETS ==> BucketOk(procs, ready[b], b, clock))
    && (forall p: nat {:trigger Queued(procs, ready, p)} :: p < NPROC ==> Queued(procs, ready, p))
  }

  ghost predicate QueuesOk(k: Kernel)
    requires Shape(k)
  {
    QueuesIn(k.procs, k.ready, k.clock)
  }

  ghost predicate InRanges(p: Proc)
  {
    -MAX_NICE <= p.nice <= MAX_NICE && -50 <= p.avgslp <= MAX_AVGSLP && MAX_RT_PRI <= p.dpri < PRI_NUM
  }

  ghost predicate RangesOk(k: Kernel)
    requires Shape(k)
  {
    forall i :: 0 <= i < NPROC && !k.procs[i].stat.Unused? ==> InRanges(k.procs[i])
  }

  ghost predicate Table(k: Kernel)
    requires Shape(k)
  {
    SlotsOk(k) && PidsOk(k) && CurOk(k) && RangesOk(k)
  }

  ghost predicate Family(k: Kernel)
    requires Shape(k)
  {
    ParentsOk(k) && WaitOk(k)
  }

  ghost predicate Inv(k: Kernel)
  {
    Shape(k) && Table(k) && Family(k) && QueuesOk(k)
  }

  // ----- steps -----

  /** Fork covers `fork` and `lwp_create`; ForkFails is a `fork` whose `copyuvm` failed.  Sleep,
      Yield, Tick, Renice, Reparent, Exit and Reap are done by the running process. */
  datatype Event =
    | Fork(parent: nat, thread: bool)
    | ForkFails
    | Sleep(chan: Chan)
    | Wake(p: nat)
    | Yield
    | Tick
    | Renice(n: int)
    | Dispatch(b: nat, dt: nat)
    | Reparent(c: nat)
    | Exit
    | Reap(c: nat)

  /** Append a process to the queue of its dynamic priority. */
  function Enqueue(k: Kernel, p: nat): (r: Kernel)
    requires p < |k.procs| && 0 <= k.procs[p].dpri - MAX_RT_PRI < |k.ready|
  {
    var b := k.procs[p].dpri - MAX_RT_PRI;
    k.(ready := k.ready[b := k.ready[b] + [p]],
       procs := k.procs[p := k.procs[p].(stamp := k.clock)],
       clock := k.clock + 1)
  }

  function NewProc(k: Kernel, parent: nat, thread: bool): (p: Proc)
  {
    var spri := StaticPri(0);
    Proc(Ready, k.nextpid, parent, thread, NoChan, false,
         0, spri, DynamicPri(spri, Bonus(0)), 0, TimeSlice(spri), 0)
  }

  /** The running process as it is put back into the queues by `giveup_cpu`. */
  function Yielding(p: Proc): (r: Proc)
  {
    var spri := StaticPri(p.nice);
    p.(stat := Ready, spri := spri, slice := TimeSlice(spri), dpri := DynamicPri(spri, Bonus(p.avgslp)))
  }

  function Ticked(p: Proc): (r: Proc)
  {
    p.(slice := p.slice - 10, avgslp := Max(-50, p.avgslp - 1))
  }

  function Dispatched(p: Proc, dt: nat): (r: Proc)
  {
    if p.slept then p.(stat := Running, chan := NoChan, slept := false, avgslp := AvgAfterSleep(p.avgslp, dt))
    else p.(stat := Running)
  }

  function Reaped(p: Proc): (r: Proc)
  {
    p.(stat := Unused, pid := 0, parent := NPROC)
  }

  ghost predicate Runs(k: Kernel) { |k.procs| == NPROC && k.cur < NPROC }

  ghost predicate Enabled(k: Kernel, e: Event)
  {
    && Shape(k)
    && match e
       case Fork(parent, thread) =>
         Runs(k) && k.empty != [] && k.empty[0] < NPROC && parent < NPROC && Live(k.procs[parent])
       case ForkFails => Runs(k) && k.empty != [] && k.empty[0] < NPROC
       case Sleep(chan) =>
         && Runs(k)
         && (forall c :: 0 <= c < NPROC && k.procs[c].parent == k.cur && k.procs[c].stat.Zombie? ==>
               chan != OnWait && (k.procs[c].thread ==> chan != OnJoin))
       case Wake(p) => p < NPROC && k.procs[p].stat.Sleeping? && 0 <= k.procs[p].dpri - MAX_RT_PRI < BUCKETS
       case Yield => Runs(k)
       case Tick => Runs(k)
       case Renice(n) => Runs(k)
       case Dispatch(b, dt) =>
         k.cur == NPROC && b < BUCKETS && k.ready[b] != [] && k.ready[b][0] < NPROC
         && forall a :: 0 <= a < b ==> k.ready[a] == []
       case Reparent(c) =>
         Runs(k) && c < NPROC && k.procs[c].parent == k.cur && k.cur != k.init && c != k.init
         && (k.procs[c].stat.Zombie? ==>
               !(k.procs[k.init].stat.Sleeping? && (k.procs[k.init].chan == OnWait || k.procs[k.init].chan == OnJoin)))
       case Exit =>
         && Runs(k) && k.cur != k.init && k.procs[k.cur].parent < NPROC
         && (forall c :: 0 <= c < NPROC ==> k.procs[c].parent != k.cur)
         && !(k.procs[k.procs[k.cur].parent].stat.Sleeping?
              && (k.procs[k.procs[k.cur].parent].chan == OnWait || k.procs[k.procs[k.cur].parent].chan == OnJoin))
       case Reap(c) => Runs(k) && c < NPROC && k.procs[c].stat.Zombie? && k.procs[c].parent == k.cur
  }

  ghost function Step(k: Kernel, e: Event): Kernel
    requires Enabled(k, e)
  {
    match e
    case Fork(parent, thread) =>
      var p := k.empty[0];
      Enqueue(k.(procs := k.procs[p := NewProc(k, parent, thread)], empty := k.empty[1..], nextpid := k.nextpid + 1), p)
    case ForkFails =>
      var p := k.empty[0];
      k.(procs := k.procs[p := NewProc(k, NPROC, false).(stat := Unused)],
         empty := k.empty[1..] + [p], nextpid := k.nextpid + 1)
    case Sleep(chan) =>
      k.(procs := k.procs[k.cur := k.procs[k.cur].(stat := Sleeping, chan := chan, slept := true)], cur := NPROC)
    case Wake(p) => Enqueue(k.(procs := k.procs[p := k.procs[p].(stat := Ready)]), p)
    case Yield => Enqueue(k.(procs := k.procs[k.cur := Yielding(k.procs[k.cur])], cur := NPROC), k.cur)
    case Tick => k.(procs := k.procs[k.cur := Ticked(k.procs[k.cur])])
    case Renice(n) =>
      var aim := k.procs[k.cur].nice + n;
      if -MAX_NICE <= aim <= MAX_NICE then k.(procs := k.procs[k.cur := k.procs[k.cur].(nice := aim)]) else k
    case Dispatch(b, dt) =>
      var p := k.ready[b][0];
      k.(ready := k.ready[b := k.ready[b][1..]], procs := k.procs[p := Dispatched(k.procs[p], dt)], cur := p)
    case Reparent(c) => k.(procs := k.procs[c := k.procs[c].(parent := k.init)])
    case Exit => k.(procs := k.procs[k.cur := k.procs[k.cur].(stat := Zombie)], cur := NPROC)
    case Reap(c) => k.(procs := k.procs[c := Reaped(k.procs[c])], empty := k.empty + [c])
  }

  // ----- what each event does, in plain numbers -----

  /** Only process p, the ready queues and the clock may differ. */
  ghost predicate OnlyProc(k: Kernel, k': Kernel, p: nat)
  {
    && |k'.procs| == |k.procs| && k'.init == k.init
    && forall i :: 0 <= i < |k.procs| && i != p ==> k'.procs[i] == k.procs[i]
  }

  /** Process p went to the tail of the queue of priority d, and no other queue changed. */
  ghost predicate WentTo(k: Kernel, k': Kernel, p: nat, d: int)
  {
    && |k'.ready| == |k.ready| == 40 && 100 <= d < 140 && k'.ready[d - 100] == k.ready[d - 100] + [p]
    && (forall b :: 0 <= b < 40 && b != d - 100 ==> k'.ready[b] == k.ready[b])
    && k'.clock == k.clock + 1
  }

  /** `fork`: a child in the first empty slot, with the default priority and 400 ticks. */
  lemma ForkDoes(k: Kernel, parent: nat, thread: bool)
    requires Enabled(k, Fork(parent, thread))
    ensures var k', c := Step(k, Fork(parent, thread)), k.empty[0];
      && OnlyProc(k, k', c) && WentTo(k, k', c, 125) && k'.cur == k.cur
      && k'.procs[c] == Proc(Ready, k.nextpid, parent, thread, NoChan, false, 0, 120, 125, 0, 400, k.clock)
      && k'.empty == k.empty[1..] && k'.nextpid == k.nextpid + 1
  {
  }

  /** A `fork` that fails gives its slot back and uses up a pid. */
  lemma ForkFailsDoes(k: Kernel)
    requires Enabled(k, ForkFails)
    ensures var k', c := Step(k, ForkFails), k.empty[0];
      && OnlyProc(k, k', c) && k'.procs[c].stat.Unused? && k'.procs[c].parent == 64 && k'.empty == k.empty[1..] + [c]
      && k'.nextpid == k.nextpid + 1 && k'.ready == k.ready && k'.cur == k.cur
  {
  }

  /** `sleep` up to the switch: asleep on that event, and nobody runs. */
  lemma SleepDoes(k: Kernel, chan: Chan)
    requires Enabled(k, Sleep(chan))
    ensures var k' := Step(k, Sleep(chan));
      && OnlyProc(k, k', k.cur) && k'.procs[k.cur] == k.procs[k.cur].(stat := Sleeping, chan := chan, slept := true)
      && k'.cur == 64 && k'.ready == k.ready && k'.empty == k.empty && k'.nextpid == k.nextpid
  {
  }

  /** Waking makes a sleeper ready at the tail of the queue of its priority. */
  lemma WakeDoes(k: Kernel, p: nat)
    requires Enabled(k, Wake(p))
    ensures var k' := Step(k, Wake(p));
      && OnlyProc(k, k', p) && k'.procs[p] == k.procs[p].(stat := Ready, stamp := k.clock)
      && WentTo(k, k', p, k.procs[p].dpri) && k'.cur == k.cur && k'.empty == k.empty && k'.nextpid == k.nextpid
  {
  }

  /** `giveup_cpu`: ready again, priority and slice recomputed, at the tail of the new queue. */
  lemma YieldDoes(k: Kernel)
    requires Enabled(k, Yield)
    ensures var k', p, q := Step(k, Yield), k.procs[k.cur], Step(k, Yield).procs[k.cur];
      && OnlyProc(k, k', k.cur)
      && q == p.(stat := Ready, spri := q.spri, slice := q.slice, dpri := q.dpri, stamp := k.clock)
      && q.spri == 120 + p.nice && q.slice == TimeSlice(120 + p.nice)
      && q.dpri == DynamicPri(120 + p.nice, Bonus(p.avgslp))
      && WentTo(k, k', k.cur, q.dpri) && k'.cur == 64 && k'.empty == k.empty && k'.nextpid == k.nextpid
  {
  }

  /** A timer tick costs ten of the slice and one of the sleep average, which stops at -50. */
  lemma TickDoes(k: Kernel)
    requires Enabled(k, Tick)
    ensures var k', p, q := Step(k, Tick), k.procs[k.cur], Step(k, Tick).procs[k.cur];
      && OnlyProc(k, k', k.cur) && q == p.(slice := p.slice - 10, avgslp := q.avgslp)
      && q.avgslp == (if p.avgslp <= -50 then -50 else p.avgslp - 1)
      && k' == k.(procs := k'.procs)
  {
  }

  /** The nice value stays within 15 of zero. */
  lemma ReniceDoes(k: Kernel, n: int)
    requires Enabled(k, Renice(n))
    ensures var k', p := Step(k, Renice(n)), k.procs[k.cur];
      && OnlyProc(k, k', k.cur) && k' == k.(procs := k'.procs)
      && k'.procs[k.cur] == p.(nice := if -15 <= p.nice + n <= 15 then p.nice + n else p.nice)
  {
  }

  /** The head of the queue runs; if it was inside `sleep`, that call ends. */
  lemma DispatchDoes(k: Kernel, b: nat, dt: nat)
    requires Enabled(k, Dispatch(b, dt))
    ensures var k', p := Step(k, Dispatch(b, dt)), k.ready[b][0];
      && OnlyProc(k, k', p) && k'.cur == p && k'.ready == k.ready[b := k.ready[b][1..]]
      && k'.empty == k.empty && k'.nextpid == k.nextpid && k'.clock == k.clock
      && (!k.procs[p].slept ==> k'.procs[p] == k.procs[p].(stat := Running))
      && (k.procs[p].slept ==> k'.procs[p] == k.procs[p].(
           stat := Running, chan := NoChan, slept := false, avgslp := AvgAfterSleep(k.procs[p].avgslp, dt)))
  {
  }

  /** A child is handed to init; the exiting process becomes a zombie; a zombie's slot is reused. */
  lemma EndDoes(k: Kernel, e: Event)
    requires Enabled(k, e)
    ensures e.Reparent? ==> Step(k, e) == k.(procs := k.procs[e.c := k.procs[e.c].(parent := k.init)])
    ensures e.Exit? ==> Step(k, e) == k.(procs := k.procs[k.cur := k.procs[k.cur].(stat := Zombie)], cur := 64)
    ensures e.Reap? ==> OnlyProc(k, Step(k, e), e.c)
    ensures e.Reap? ==> Step(k, e).empty == k.empty + [e.c] && Step(k, e).ready == k.ready
    ensures e.Reap? ==> Step(k, e).procs[e.c] == k.procs[e.c].(stat := Unused, pid := 0, parent := 64)
    ensures e.Reap? ==> Step(k, e).cur == k.cur && Step(k, e).nextpid == k.nextpid
  {
  }

  // ----- what every step keeps -----

  /** A process in use changes, keeps its pid, and stays within the ranges. */
  lemma ChangeKeepsTable(k: Kernel, k': Kernel, p: nat)
    requires Shape(k) && Table(k) && Shape(k') && p < NPROC
    requires k'.procs == k.procs[p := k'.procs[p]] && k'.empty == k.empty && k'.nextpid == k.nextpid
    requires !k.procs[p].stat.Unused? && !k'.procs[p].stat.Unused? && k'.procs[p].pid == k.procs[p].pid
    requires InRanges(k'.procs[p])
    requires k.cur == k'.cur || k.cur == p || k.cur == NPROC
    requires k'.procs[p].stat.Running? <==> p == k'.cur
    requires k'.cur == p || k'.cur == NPROC || k'.cur == k.cur
    ensures Table(k')
  {
  }

  lemma ForkKeepsTable(k: Kernel, parent: nat, thread: bool)
    requires Enabled(k, Fork(parent, thread)) && Table(k)
    ensures Shape(Step(k, Fork(parent, thread))) && Table(Step(k, Fork(parent, thread)))
  {
    ForkKeepsSlots(k, parent, thread);
    ForkKeepsPids(k, parent, thread);
  }

  lemma ForkKeepsSlots(k: Kernel, parent: nat, thread: bool)
    requires Enabled(k, Fork(parent, thread)) && SlotsOk(k)
    ensures Shape(Step(k, Fork(parent, thread))) && SlotsOk(Step(k, Fork(parent, thread)))
  {
  }

  lemma ForkKeepsPids(k: Kernel, parent: nat, thread: bool)
    requires Enabled(k, Fork(parent, thread)) && PidsOk(k) && 1 <= k.nextpid
    ensures Shape(Step(k, Fork(parent, thread))) && PidsOk(Step(k, Fork(parent, thread)))
  {
  }

  lemma ForkFailsKeepsTable(k: Kernel)
    requires Enabled(k, ForkFails) && Table(k)
    ensures Shape(Step(k, ForkFails)) && Table(Step(k, ForkFails))
  {
  }

  lemma ReapKeepsTable(k: Kernel, c: nat)
    requires Enabled(k, Reap(c)) && Table(k)
    ensures Shape(Step(k, Reap(c))) && Table(Step(k, Reap(c)))
  {
    ReapKeepsSlots(k, c);
  }

  lemma ReapKeepsSlots(k: Kernel, c: nat)
    requires Enabled(k, Reap(c)) && SlotsOk(k)
    ensures Shape(Step(k, Reap(c))) && SlotsOk(Step(k, Reap(c)))
  {
    assert (k.empty + [c])[|k.empty|] == c;
  }

  lemma HeadIsReady(k: Kernel, b: nat)
    requires Shape(k) && QueuesOk(k) && b < BUCKETS && k.ready[b] != []
    ensures k.ready[b][0] < NPROC && k.procs[k.ready[b][0]].stat.Ready?
  {
    assert BucketOk(k.procs, k.ready[b], b, k.clock);
  }

  /** Slots, pids, the running process and the ranges. */
  lemma StepKeepsTable(k: Kernel, e: Event)
    requires Enabled(k, e) && Table(k) && QueuesOk(k)
    ensures Shape(Step(k, e)) && Table(Step(k, e))
  {
    match e
    case Fork(parent, thread) => ForkKeepsTable(k, parent, thread);
    case ForkFails => ForkFailsKeepsTable(k);
    case Reap(c) => ReapKeepsTable(k, c);
    case Reparent(c) => ReparentKeepsTable(k, c);
    case Wake(p) => ChangeKeepsTable(k, Step(k, e), p);
    case Dispatch(b, _) =>
      HeadIsReady(k, b);
      ChangeKeepsTable(k, Step(k, e), k.ready[b][0]);
    case _ => RunnerKeepsTable(k, e);
  }

  /** Events of the running process. */
  lemma RunnerKeepsTable(k: Kernel, e: Event)
    requires Enabled(k, e) && Table(k) && (e.Sleep? || e.Yield? || e.Tick? || e.Renice? || e.Exit?)
    ensures Shape(Step(k, e)) && Table(Step(k, e))
  {
    ChangeKeepsTable(k, Step(k, e), k.cur);
  }

  lemma ReparentKeepsTable(k: Kernel, c: nat)
    requires Enabled(k, Reparent(c)) && Table(k)
    ensures Shape(Step(k, Reparent(c))) && Table(Step(k, Reparent(c)))
  {
  }

  /** What the family of processes is about. */
  ghost predicate SameKin(p: Proc, q: Proc)
  {
    p.parent == q.parent && Live(p) == Live(q) && p.stat.Unused? == q.stat.Unused?
  }

  /** These events change nobody's parent and make nobody live or dead. */
  predicate KeepsKin(e: Event)
  {
    e.Sleep? || e.Wake? || e.Yield? || e.Tick? || e.Renice? || e.Dispatch?
  }

  lemma KinKept(k: Kernel, e: Event)
    requires Enabled(k, e) && KeepsKin(e) && CurOk(k) && QueuesOk(k)
    ensures Shape(Step(k, e)) && forall i: nat :: i < NPROC ==> SameKin(k.procs[i], Step(k, e).procs[i])
  {
    if e.Dispatch? {
      HeadIsReady(k, e.b);
    }
  }

  lemma ParentStep(k: Kernel, e: Event, i: nat)
    requires Enabled(k, e) && SlotsOk(k) && CurOk(k) && QueuesOk(k) && ParentsOk(k) && i < NPROC
    ensures Shape(Step(k, e)) && ParentOk(Step(k, e), i)
  {
    assert ParentOk(k, i);
    if KeepsKin(e) {
      KinKept(k, e);
    } else {
      KinStep(k, e, i);
    }
  }

  lemma KinStep(k: Kernel, e: Event, i: nat)
    requires Enabled(k, e) && SlotsOk(k) && CurOk(k) && Live(k.procs[k.init])
    requires i < NPROC && ParentOk(k, i) && !KeepsKin(e)
    ensures Shape(Step(k, e)) && ParentOk(Step(k, e), i)
  {
  }

  /** Every process but init keeps a live parent. */
  lemma StepKeepsParents(k: Kernel, e: Event)
    requires Enabled(k, e) && SlotsOk(k) && CurOk(k) && QueuesOk(k) && ParentsOk(k)
    ensures Shape(Step(k, e)) && ParentsOk(Step(k, e))
  {
    forall i: nat | i < NPROC
      ensures ParentOk(Step(k, e), i)
    {
      ParentStep(k, e, i);
    }
    InitStaysLive(k, e);
  }

  lemma InitStaysLive(k: Kernel, e: Event)
    requires Enabled(k, e) && SlotsOk(k) && CurOk(k) && QueuesOk(k) && ParentsOk(k)
    ensures Shape(Step(k, e)) && Live(Step(k, e).procs[k.init])
  {
    if KeepsKin(e) {
      KinKept(k, e);
    }
  }

  /** Nobody comes to sleep beside a zombie child. */
  lemma StepKeepsWaits(k: Kernel, e: Event)
    requires Enabled(k, e) && SlotsOk(k) && CurOk(k) && QueuesOk(k) && Family(k)
    ensures Shape(Step(k, e)) && WaitOk(Step(k, e))
  {
  }

  // The ready queues.

  /** Changing a process that is in no queue leaves the queues in order. */
  lemma OtherKeepsQueues(procs: seq<Proc>, ready: seq<seq<nat>>, clock: nat, p: nat, q: Proc)
    requires |procs| == NPROC && |ready| == BUCKETS && QueuesIn(procs, ready, clock) && p < NPROC
    requires !procs[p].stat.Ready? && !q.stat.Ready?
    ensures QueuesIn(procs[p := q], ready, clock)
  {
    var procs' := procs[p := q];
    forall i: nat | i < NPROC
      ensures Queued(procs', ready, i)
    {
      assert Queued(procs, ready, i);
    }
  }

  /** A process outside the queues that becomes ready goes to the tail of its queue. */
  lemma EnqueueKeepsQueues(k: Kernel, p: nat)
    requires Shape(k) && p < NPROC && MAX_RT_PRI <= k.procs[p].dpri < PRI_NUM && k.procs[p].stat.Ready?
    requires forall b: nat :: b < BUCKETS ==> BucketOk(k.procs, k.ready[b], b, k.clock)
    requires forall i: nat {:trigger Queued(k.procs, k.ready, i)} :: i < NPROC && i != p ==> Queued(k.procs, k.ready, i)
    requires forall b: nat :: b < BUCKETS ==> p !in k.ready[b]
    ensures QueuesOk(Enqueue(k, p))
  {
    var k', d := Enqueue(k, p), k.procs[p].dpri - MAX_RT_PRI;
    forall i: nat | i < NPROC
      ensures Queued(k'.procs, k'.ready, i)
    {
      assert i != p ==> Queued(k.procs, k.ready, i);
      assert k'.ready[d][|k.ready[d]|] == p;
    }
    forall b: nat | b < BUCKETS
      ensures BucketOk(k'.procs, k'.ready[b], b, k'.clock)
    {
      assert BucketOk(k.procs, k.ready[b], b, k.clock);
    }
  }

  lemma ReadyAgain(k: Kernel, procs: seq<Proc>, p: nat)
    requires |procs| == NPROC && Shape(k) && QueuesIn(procs, k.ready, k.clock) && p < NPROC
    requires !procs[p].stat.Ready? && k.procs[p].stat.Ready? && k.procs == procs[p := k.procs[p]]
    requires MAX_RT_PRI <= k.procs[p].dpri < PRI_NUM
    ensures QueuesOk(Enqueue(k, p))
  {
    forall i: nat | i < NPROC && i != p
      ensures Queued(k.procs, k.ready, i)
    {
      assert Queued(procs, k.ready, i);
    }
    forall b: nat | b < BUCKETS
      ensures BucketOk(k.procs, k.ready[b], b, k.clock) && p !in k.ready[b]
    {
      assert BucketOk(procs, k.ready[b], b, k.clock);
    }
    EnqueueKeepsQueues(k, p);
  }

  lemma ForkKeepsQueues(k: Kernel, parent: nat, thread: bool)
    requires Enabled(k, Fork(parent, thread)) && SlotsOk(k) && CurOk(k) && QueuesOk(k)
    ensures Shape(Step(k, Fork(parent, thread))) && QueuesOk(Step(k, Fork(parent, thread)))
  {
    var p := k.empty[0];
    ReadyAgain(k.(procs := k.procs[p := NewProc(k, parent, thread)], empty := k.empty[1..], nextpid := k.nextpid + 1),
               k.procs, p);
  }

  lemma ForkFailsKeepsQueues(k: Kernel)
    requires Enabled(k, ForkFails) && SlotsOk(k) && CurOk(k) && QueuesOk(k)
    ensures Shape(Step(k, ForkFails)) && QueuesOk(Step(k, ForkFails))
  {
    OtherKeepsQueues(k.procs, k.ready, k.clock, k.empty[0], NewProc(k, NPROC, false).(stat := Unused));
  }

  lemma SleepKeepsQueues(k: Kernel, chan: Chan)
    requires Enabled(k, Sleep(chan)) && CurOk(k) && QueuesOk(k)
    ensures Shape(Step(k, Sleep(chan))) && QueuesOk(Step(k, Sleep(chan)))
  {
    OtherKeepsQueues(k.procs, k.ready, k.clock, k.cur, k.procs[k.cur].(stat := Sleeping, chan := chan, slept := true));
  }

  lemma WakeKeepsQueues(k: Kernel, p: nat)
    requires Enabled(k, Wake(p)) && CurOk(k) && QueuesOk(k)
    ensures Shape(Step(k, Wake(p))) && QueuesOk(Step(k, Wake(p)))
  {
    ReadyAgain(k.(procs := k.procs[p := k.procs[p].(stat := Ready)]), k.procs, p);
  }

  lemma YieldKeepsQueues(k: Kernel)
    requires Enabled(k, Yield) && CurOk(k) && QueuesOk(k)
    ensures Shape(Step(k, Yield)) && QueuesOk(Step(k, Yield))
  {
    ReadyAgain(k.(procs := k.procs[k.cur := Yielding(k.procs[k.cur])], cur := NPROC), k.procs, k.cur);
  }

  lemma TickKeepsQueues(k: Kernel)
    requires Enabled(k, Tick) && CurOk(k) && QueuesOk(k)
    ensures Shape(Step(k, Tick)) && QueuesOk(Step(k, Tick))
  {
    OtherKeepsQueues(k.procs, k.ready, k.clock, k.cur, Ticked(k.procs[k.cur]));
  }

  lemma ReniceKeepsQueues(k: Kernel, n: int)
    requires Enabled(k, Renice(n)) && CurOk(k) && QueuesOk(k)
    ensures Shape(Step(k, Renice(n))) && QueuesOk(Step(k, Renice(n)))
  {
    OtherKeepsQueues(k.procs, k.ready, k.clock, k.cur, k.procs[k.cur].(nice := k.procs[k.cur].nice + n));
  }

  lemma DispatchKeepsQueues(k: Kernel, b: nat, dt: nat)
    requires Enabled(k, Dispatch(b, dt)) && CurOk(k) && QueuesOk(k)
    ensures Shape(Step(k, Dispatch(b, dt))) && QueuesOk(Step(k, Dispatch(b, dt)))
  {
    var k', p := Step(k, Dispatch(b, dt)), k.ready[b][0];
    assert BucketOk(k.procs, k.ready[b], b, k.clock);
    forall i: nat | i < NPROC
      ensures Queued(k'.procs, k'.ready, i)
    {
      assert Queued(k.procs, k.ready, i);
    }
    forall a: nat | a < BUCKETS
      ensures BucketOk(k'.procs, k'.ready[a], a, k'.clock)
    {
      assert BucketOk(k.procs, k.ready[a], a, k.clock);
    }
  }

  lemma ReparentKeepsQueues(k: Kernel, c: nat)
    requires Enabled(k, Reparent(c)) && CurOk(k) && QueuesOk(k)
    ensures Shape(Step(k, Reparent(c))) && QueuesOk(Step(k, Reparent(c)))
  {
    var k' := Step(k, Reparent(c));
    forall i: nat | i < NPROC
      ensures Queued(k'.procs, k'.ready, i)
    {
      assert Queued(k.procs, k.ready, i);
    }
  }

  lemma ExitKeepsQueues(k: Kernel)
    requires Enabled(k, Exit) && CurOk(k) && QueuesOk(k)
    ensures Shape(Step(k, Exit)) && QueuesOk(Step(k, Exit))
  {
    OtherKeepsQueues(k.procs, k.ready, k.clock, k.cur, k.procs[k.cur].(stat := Zombie));
  }

  lemma ReapKeepsQueues(k: Kernel, c: nat)
    requires Enabled(k, Reap(c)) && CurOk(k) && QueuesOk(k)
    ensures Shape(Step(k, Reap(c))) && QueuesOk(Step(k, Reap(c)))
  {
    OtherKeepsQueues(k.procs, k.ready, k.clock, c, Reaped(k.procs[c]));
  }

  lemma StepKeepsQueues(k: Kernel, e: Event)
    requires Enabled(k, e) && SlotsOk(k) && CurOk(k) && QueuesOk(k)
    ensures Shape(Step(k, e)) && QueuesOk(Step(k, e))
  {
    match e
    case Fork(parent, thread) => ForkKeepsQueues(k, parent, thread);
    case ForkFails => ForkFailsKeepsQueues(k);
    case Sleep(chan) => SleepKeepsQueues(k, chan);
    case Wake(p) => WakeKeepsQueues(k, p);
    case Yield => YieldKeepsQueues(k);
    case Tick => TickKeepsQueues(k);
    case Renice(n) => ReniceKeepsQueues(k, n);
    case Dispatch(b, dt) => DispatchKeepsQueues(k, b, dt);
    case Reparent(c) => ReparentKeepsQueues(k, c);
    case Exit => ExitKeepsQueues(k);
    case Reap(c) => ReapKeepsQueues(k, c);
  }

  /** Every step keeps the life-cycle and the scheduling invariant. */
  lemma StepKeepsInv(k: Kernel, e: Event)
    requires Inv(k) && Enabled(k, e)
    ensures Inv(Step(k, e))
  {
    StepKeepsTable(k, e);
    StepKeepsParents(k, e);
    StepKeepsWaits(k, e);
    StepKeepsQueues(k, e);
  }

  // ----- runs -----

  /** After `userinit`: init ready in slot 0, every other slot empty. */
  ghost predicate Booted(k: Kernel)
  {
    && |k.procs| == NPROC && |k.ready| == BUCKETS && k.init == 0 && k.cur == NPROC && k.clock == 1 && k.nextpid == 2
    && k.procs[0] == Proc(Ready, 1, NPROC, false, NoChan, false, 0, 120, 125, 0, 400, 0)
    && (forall i :: 1 <= i < NPROC ==> k.procs[i].stat.Unused? && k.procs[i].parent == NPROC)
    && |k.empty| == NPROC - 1 && (forall i :: 0 <= i < NPROC - 1 ==> k.empty[i] == i + 1)
    && (forall b :: 0 <= b < BUCKETS ==> k.ready[b] == if b == 25 then [0] else [])
  }

  lemma BootedInv(k: Kernel)
    requires Booted(k)
    ensures Inv(k)
  {
    assert k.empty[..] == k.empty;
    forall i: nat | i < NPROC && k.procs[i].stat.Unused?
      ensures i in k.empty
    {
      assert k.empty[i - 1] == i;
    }
    forall i: nat | i < NPROC
      ensures ParentOk(k, i) && Queued(k.procs, k.ready, i)
    {
    }
  }

  /** A run, latest event outermost. */
  datatype Run = Start(k: Kernel) | Then(prev: Run, e: Event, k: Kernel)

  ghost predicate IsRun(r: Run)
  {
    match r
    case Start(k) => Booted(k)
    case Then(prev, e, k) => IsRun(prev) && Enabled(prev.k, e) && k == Step(prev.k, e)
  }

  ghost predicate Unfold(r: Run) { true }

  /** `IsRun`, kept folded except where `Unfold` is mentioned. */
  ghost predicate Reached(r: Run)
  {
    forall q {:trigger Unfold(q)} :: q == r ==> IsRun(q)
  }

  lemma ReachedIsRun(r: Run)
    ensures Reached(r) <==> IsRun(r)
  {
    assert Unfold(r);
  }

  lemma {:induction false} RunKeepsInv(r: Run)
    requires IsRun(r)
    ensures Inv(r.k)
  {
    match r
    case Start(k) => BootedInv(k);
    case Then(prev, e, k) =>
      RunKeepsInv(prev);
      StepKeepsInv(prev.k, e);
  }

  // ----- what the invariant means -----

  lemma HeadIsBest(procs: seq<Proc>, ready: seq<seq<nat>>, clock: nat, b: nat, q: nat)
    requires |procs| == NPROC && |ready| == BUCKETS && QueuesIn(procs, ready, clock)
    requires b < BUCKETS && ready[b] != [] && (forall a :: 0 <= a < b ==> ready[a] == [])
    requires q < NPROC && procs[q].stat.Ready?
    ensures ready[b][0] < NPROC
    ensures var p := ready[b][0];
      procs[p].dpri < procs[q].dpri || (procs[p].dpri == procs[q].dpri && procs[p].stamp <= procs[q].stamp)
  {
    assert Queued(procs, ready, q);
    var c := procs[q].dpri - MAX_RT_PRI;
    assert BucketOk(procs, ready[c], c, clock);
    assert BucketOk(procs, ready[b], b, clock);
  }

  /** On every run the scheduler takes a process of least dynamic priority number that has waited
      longest in its queue. */
  lemma DispatchPicksBest(r: Run, b: nat, dt: nat, q: nat)
    requires IsRun(r) && Enabled(r.k, Dispatch(b, dt)) && q < NPROC && r.k.procs[q].stat.Ready?
    ensures var p := r.k.ready[b][0];
      r.k.procs[p].dpri < r.k.procs[q].dpri
      || (r.k.procs[p].dpri == r.k.procs[q].dpri && r.k.procs[p].stamp <= r.k.procs[q].stamp)
  {
    RunKeepsInv(r);
    HeadIsBest(r.k.procs, r.k.ready, r.k.clock, b, q);
  }

  /** If all queues are empty, nobody is ready. */
  lemma NothingQueuedNothingReady(r: Run, q: nat)
    requires IsRun(r) && q < NPROC && |r.k.procs| == NPROC && forall b :: 0 <= b < |r.k.ready| ==> r.k.ready[b] == []
    ensures !r.k.procs[q].stat.Ready?
  {
    RunKeepsInv(r);
    assert Queued(r.k.procs, r.k.ready, q);
  }

  /** A ready process is in the queue of its dynamic priority, once, and in no other. */
  lemma ReadyOnce(r: Run, p: nat) returns (i: nat)
    requires IsRun(r) && p < NPROC && |r.k.procs| == NPROC && |r.k.ready| == BUCKETS && r.k.procs[p].stat.Ready?
    ensures 0 <= r.k.procs[p].dpri - MAX_RT_PRI < BUCKETS
    ensures var b := r.k.procs[p].dpri - MAX_RT_PRI; i < |r.k.ready[b]| && r.k.ready[b][i] == p
    ensures forall a, j :: 0 <= a < BUCKETS && 0 <= j < |r.k.ready[a]| && r.k.ready[a][j] == p ==>
      a == r.k.procs[p].dpri - MAX_RT_PRI && j == i
  {
    RunKeepsInv(r);
    i := OncePerProcess(r.k.procs, r.k.ready, r.k.clock, p);
  }

  lemma OncePerProcess(procs: seq<Proc>, ready: seq<seq<nat>>, clock: nat, p: nat) returns (i: nat)
    requires |procs| == NPROC && |ready| == BUCKETS && QueuesIn(procs, ready, clock)
    requires p < NPROC && procs[p].stat.Ready?
    ensures 0 <= procs[p].dpri - MAX_RT_PRI < BUCKETS
    ensures var b := procs[p].dpri - MAX_RT_PRI; i < |ready[b]| && ready[b][i] == p
    ensures forall a, j :: 0 <= a < BUCKETS && 0 <= j < |ready[a]| && ready[a][j] == p ==>
      a == procs[p].dpri - MAX_RT_PRI && j == i
  {
    assert Queued(procs, ready, p);
    var b := procs[p].dpri - MAX_RT_PRI;
    i :| i < |ready[b]| && ready[b][i] == p;
    forall a, j | 0 <= a < BUCKETS && 0 <= j < |ready[a]| && ready[a][j] == p
      ensures a == b && j == i
    {
      assert BucketOk(procs, ready[a], a, clock);
      assert BucketOk(procs, ready[b], b, clock);
    }
  }

  /** Nobody else is in the queues. */
  lemma QueuedAreReady(r: Run, b: nat, i: nat)
    requires IsRun(r) && |r.k.procs| == NPROC && |r.k.ready| == BUCKETS && b < BUCKETS && i < |r.k.ready[b]|
    ensures r.k.ready[b][i] < NPROC && r.k.procs[r.k.ready[b][i]].stat.Ready?
  {
    RunKeepsInv(r);
    assert BucketOk(r.k.procs, r.k.ready[b], b, r.k.clock);
  }

  /** A zombie is never left to a parent that sleeps in `wait`, also when it was handed to init. */
  lemma NoForgottenZombie(r: Run, c: nat)
    requires IsRun(r) && c < NPROC && |r.k.procs| == NPROC && r.k.procs[c].stat.Zombie?
    ensures var p := r.k.procs[c].parent;
      p < NPROC && Live(r.k.procs[p]) && !(r.k.procs[p].stat.Sleeping? && r.k.procs[p].chan == OnWait)
  {
    RunKeepsInv(r);
    assert ParentOk(r.k, c);
    assert ParentOk(r.k, r.k.init);
  }

  // ----- kill -----

  /** `kill` of a sleeper under the priority scheme. */
  function Killed(k: Kernel, p: nat): (r: Kernel)
    requires p < |k.procs|
  {
    if k.procs[p].stat.Sleeping? then k.(procs := k.procs[p := k.procs[p].(stat := Ready)]) else k
  }

  /** Killing keeps the queues complete if and only if the victim is not asleep: a killed sleeper is
      ready but in no queue. */
  lemma KillKeepsQueuesWhen(k: Kernel, p: nat)
    requires Inv(k) && p < NPROC
    ensures QueuesOk(Killed(k, p)) <==> !k.procs[p].stat.Sleeping?
  {
    if k.procs[p].stat.Sleeping? {
      var k' := Killed(k, p);
      var c := k'.procs[p].dpri - MAX_RT_PRI;
      assert BucketOk(k.procs, k.ready[c], c, k.clock);
      assert !Queued(k'.procs, k'.ready, p);
    }
  }

  /** Ready, but nowhere to be found. */
  ghost predicate Lost(k: Kernel, p: nat)
  {
    && Shape(k) && p < NPROC && k.procs[p].stat.Ready? && k.cur != p && p !in k.empty
    && forall b :: 0 <= b < BUCKETS ==> p !in k.ready[b]
  }

  lemma KillLoses(k: Kernel, p: nat)
    requires Inv(k) && p < NPROC && k.procs[p].stat.Sleeping?
    ensures Lost(Killed(k, p), p)
  {
    forall b: nat | b < BUCKETS
      ensures p !in k.ready[b]
    {
      assert BucketOk(k.procs, k.ready[b], b, k.clock);
    }
  }

  lemma LostStep(k: Kernel, e: Event, p: nat)
    requires Lost(k, p) && Enabled(k, e)
    ensures Lost(Step(k, e), p)
  {
  }

  /** A continuation of a run from state k0. */
  ghost predicate Continues(k0: Kernel, r: Run)
  {
    match r
    case Start(k) => k == k0
    case Then(prev, e, k) => Continues(k0, prev) && Enabled(prev.k, e) && k == Step(prev.k, e)
  }

  /** However the run goes on, the scheduler never finds a killed sleeper: it stays ready and is
      never the running process again. */
  lemma {:induction false} KilledIsNeverDispatched(k: Kernel, p: nat, r: Run)
    requires Inv(k) && p < NPROC && k.procs[p].stat.Sleeping? && Continues(Killed(k, p), r)
    ensures Lost(r.k, p)
  {
    match r
    case Start(_) => KillLoses(k, p);
    case Then(prev, e, _) =>
      KilledIsNeverDispatched(k, p, prev);
      LostStep(prev.k, e, p);
  }

  lemma Longer(r: Run, e: Event) returns (r': Run)
    requires IsRun(r) && Enabled(r.k, e)
    ensures r' == Then(r, e, Step(r.k, e)) && IsRun(r')
  {
    r' := Then(r, e, Step(r.k, e));
  }

  /** There are such victims: init forks and waits, and its child goes to sleep. */
  lemma SleeperToKill(k: Kernel) returns (r: Run)
    requires Booted(k)
    ensures IsRun(r) && Shape(r.k) && r.k.procs[1].stat.Sleeping? && r.k.init != 1
  {
    r := Start(k);
    r := Longer(r, Dispatch(25, 0));
    r := Longer(r, Fork(0, false));
    r := Longer(r, Sleep(OnWait));
    assert r.k.ready[25] == [1];
    r := Longer(r, Dispatch(25, 0));
    r := Longer(r, Sleep(OnEvent(0)));
  }
}
