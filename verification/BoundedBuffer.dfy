/**
  The bounded buffer of src/consumer.c over the semaphores of src/semaphore.c, for any number of
  producers and consumers with any number of rounds each, and every interleaving of their statements.

  A semaphore call runs with interrupts off, so it is one step up to its sleep; every other
  statement of the threads is a step of its own.
 */
module BufferState {

  const SIZE: nat := 8

  datatype Role = Producer | Consumer

  /** The pc of a producer is at: 0 sem_p(2,&empty), 1 mut_p, 2 buffer[tail]=1, 3 advance tail,
      4 buffer[tail]=1, 5 advance tail, 6 mut_v, 7 sem_v(2,&full).
      The pc of a consumer is at: 0 sem_p(1,&full), 1 mut_p, 2 buffer[head]=0, 3 advance head,
      4 mut_v, 5 sem_v(1,&empty).
      `left` counts the rounds still to be finished. */
  datatype Thread = Thread(role: Role, pc: nat, left: nat)

  datatype Sem = EmptySem | FullSem | MutexSem

  datatype State = State(
    empty: int, full: int, mutex: int, buffer: seq<int>, head: nat, tail: nat,
    threads: seq<Thread>, asleep: set<nat>)

  predicate PcOk(t: Thread) { t.pc <= (if t.role.Producer? then 7 else 5) && (t.pc > 0 ==> t.left > 0) }

  /** The thread has left its loop. */
  predicate Finished(t: Thread) { t.pc == 0 && t.left == 0 }

  function Value(s: State, sem: Sem): (v: int)
  {
    match sem case EmptySem => s.empty case FullSem => s.full case MutexSem => s.mutex
  }

  function SetValue(s: State, sem: Sem, v: int): (s': State)
  {
    match sem case EmptySem => s.(empty := v) case FullSem => s.(full := v) case MutexSem => s.(mutex := v)
  }

  /** The semaphore a thread at a P waits for, and how many units it wants of it. */
  function Wants(t: Thread): (sem: Sem)
  {
    if t.pc == 1 then MutexSem else if t.role.Producer? then EmptySem else FullSem
  }

  function Units(t: Thread): (k: int) { if t.pc == 0 && t.role.Producer? then 2 else 1 }

  // ----- steps -----

  ghost predicate Enabled(s: State, i: nat)
  {
    i < |s.threads| && i !in s.asleep && PcOk(s.threads[i]) && !Finished(s.threads[i])
    && |s.buffer| == SIZE && s.head < SIZE && s.tail < SIZE
  }

  function Moved(s: State, i: nat, pc: nat): (s': State)
    requires i < |s.threads|
  {
    s.(threads := s.threads[i := s.threads[i].(pc := pc)])
  }

  /** Back to the head of the loop. */
  function RoundDone(s: State, i: nat): (s': State)
    requires i < |s.threads|
  {
    var t := s.threads[i];
    s.(threads := s.threads[i := t.(pc := 0, left := if t.left > 0 then t.left - 1 else 0)])
  }

  /** `sem_P` and `mutex_P`: sleep unless the semaphore has the units. */
  function P(s: State, i: nat): (s': State)
    requires i < |s.threads|
  {
    var t := s.threads[i];
    if Value(s, Wants(t)) <= Units(t) - 1 then s.(asleep := s.asleep + {i})
    else Moved(SetValue(s, Wants(t), Value(s, Wants(t)) - Units(t)), i, t.pc + 1)
  }

  /** `wakeup` of everybody asleep on a semaphore. */
  function Wake(s: State, sem: Sem): (s': State)
  {
    s.(asleep := set j | j in s.asleep && !(j < |s.threads| && Wants(s.threads[j]) == sem))
  }

  /** `sem_V` and `mutex_V`. */
  function V(s: State, sem: Sem, k: int): (s': State)
    ensures s'.threads == s.threads
  {
    var s' := SetValue(s, sem, Value(s, sem) + k);
    if Value(s', sem) > 0 then Wake(s', sem) else s'
  }

  ghost function Step(s: State, i: nat): State
    requires Enabled(s, i)
  {
    var t := s.threads[i];
    if t.pc <= 1 then P(s, i)
    else if t.role.Producer? then
      match t.pc
      case 2 => Moved(s.(buffer := s.buffer[s.tail := 1]), i, 3)
      case 3 => Moved(s.(tail := (s.tail + 1) % SIZE), i, 4)
      case 4 => Moved(s.(buffer := s.buffer[s.tail := 1]), i, 5)
      case 5 => Moved(s.(tail := (s.tail + 1) % SIZE), i, 6)
      case 6 => Moved(V(s, MutexSem, 1), i, 7)
      case _ => RoundDone(V(s, FullSem, 2), i)
    else
      match t.pc
      case 2 => Moved(s.(buffer := s.buffer[s.head := 0]), i, 3)
      case 3 => Moved(s.(head := (s.head + 1) % SIZE), i, 4)
      case 4 => Moved(V(s, MutexSem, 1), i, 5)
      case _ => RoundDone(V(s, EmptySem, 1), i)
  }

  // ----- what the threads hold -----

  /** Units taken from one semaphore and not yet given to the other. */
  function Held(t: Thread): (n: nat)
  {
    if t.pc == 0 then 0 else if t.role.Producer? then 2 else 1
  }

  /** Slots between head and tail that are not counted in `full`. */
  function Placed(t: Thread): (n: nat)
  {
    if t.role.Producer? then (if t.pc < 4 then 0 else if t.pc < 6 then 1 else 2)
    else if 1 <= t.pc <= 3 then 1 else 0
  }

  function Critical(t: Thread): (n: nat)
  {
    if 2 <= t.pc && t.pc <= (if t.role.Producer? then 6 else 4) then 1 else 0
  }

  /** A consumer that has emptied the slot at head, a producer that has filled the slot at tail. */
  function Emptied(t: Thread): (n: nat) { if t.role.Consumer? && t.pc == 3 then 1 else 0 }

  function Filled(t: Thread): (n: nat) { if t.role.Producer? && (t.pc == 3 || t.pc == 5) then 1 else 0 }

  function Total(ts: seq<Thread>, f: Thread -> nat): (n: nat)
  {
    if ts == [] then 0 else f(ts[0]) + Total(ts[1..], f)
  }

  lemma {:induction false} TotalUpdate(ts: seq<Thread>, i: nat, t: Thread, f: Thread -> nat)
    requires i < |ts|
    ensures Total(ts[i := t], f) == Total(ts, f) - f(ts[i]) + f(t)
  {
    if i > 0 {
      TotalUpdate(ts[1..], i - 1, t, f);
      assert ts[i := t][1..] == ts[1..][i - 1 := t];
    }
  }

  lemma {:induction false} TotalCovers(ts: seq<Thread>, i: nat, f: Thread -> nat)
    requires i < |ts|
    ensures f(ts[i]) <= Total(ts, f)
  {
    if i > 0 {
      TotalCovers(ts[1..], i - 1, f);
    }
  }

  lemma {:induction false} TotalZero(ts: seq<Thread>, f: Thread -> nat, g: Thread -> nat)
    requires Total(ts, f) == 0 && forall t :: g(t) <= f(t)
    ensures Total(ts, g) == 0
  {
    if ts != [] {
      TotalZero(ts[1..], f, g);
    }
  }

  /** Nobody is beside the one thread in its critical section. */
  lemma {:induction false} TotalAlone(ts: seq<Thread>, i: nat, f: Thread -> nat, g: Thread -> nat)
    requires i < |ts| && Total(ts, f) <= 1 && f(ts[i]) == 1 && forall t :: g(t) <= f(t)
    ensures Total(ts, g) == g(ts[i])
  {
    if i == 0 {
      TotalZero(ts[1..], f, g);
    } else {
      TotalCovers(ts[1..], i - 1, f);
      TotalAlone(ts[1..], i - 1, f, g);
    }
  }

  /** What is held but not placed is at least what one thread holds and has not placed. */
  lemma {:induction false} HeldNotPlaced(ts: seq<Thread>, i: nat)
    requires i <= |ts|
    ensures Total(ts, Placed) <= Total(ts, Held)
    ensures i < |ts| ==> Held(ts[i]) - Placed(ts[i]) <= Total(ts, Held) - Total(ts, Placed)
  {
    if ts != [] {
      HeldNotPlaced(ts[1..], if i > 0 then i - 1 else |ts| - 1);
    }
  }

  // ----- the invariant -----

  function Occupied(s: State): (n: int) { s.full + Total(s.threads, Placed) }

  ghost predicate Counts(s: State)
  {
    && s.empty >= 0 && s.full >= 0 && s.mutex >= 0
    && s.mutex + Total(s.threads, Critical) == 1
    && s.empty + s.full + Total(s.threads, Held) == SIZE
    && forall i :: 0 <= i < |s.threads| ==> PcOk(s.threads[i])
  }

  /** A sleeper wants more units than there are. */
  ghost predicate Sleepers(s: State)
  {
    forall i :: i in s.asleep ==>
      && i < |s.threads| && s.threads[i].pc <= 1 && s.threads[i].left > 0
      && Value(s, Wants(s.threads[i])) < Units(s.threads[i])
  }

  /** The slot d places after head, cyclically. */
  function Slot(head: nat, d: nat): (i: nat)
    ensures i < SIZE
  {
    (head + d) % SIZE
  }

  /** The ring from head: empty slots up to lo, full ones up to hi, then empty ones. */
  ghost predicate Ring(buffer: seq<int>, head: nat, lo: nat, hi: nat)
  {
    && |buffer| == SIZE && head < SIZE
    && forall d: nat {:trigger Slot(head, d)} :: d < SIZE ==> buffer[Slot(head, d)] == if lo <= d < hi then 1 else 0
  }

  ghost predicate Buffer(s: State)
  {
    && 0 <= Occupied(s) <= SIZE && s.tail < SIZE
    && s.tail == Slot(s.head, Occupied(s))
    && Ring(s.buffer, s.head, Total(s.threads, Emptied), Occupied(s) + Total(s.threads, Filled))
  }

  ghost predicate Inv(s: State)
  {
    Counts(s) && Sleepers(s) && Buffer(s)
  }

  // ----- steps on the ring -----

  lemma FillSlot(buffer: seq<int>, head: nat, n: nat)
    requires Ring(buffer, head, 0, n) && n < SIZE
    ensures buffer[Slot(head, n)] == 0 && Ring(buffer[Slot(head, n) := 1], head, 0, n + 1)
  {
  }

  lemma EmptySlot(buffer: seq<int>, head: nat, n: nat)
    requires Ring(buffer, head, 0, n) && 0 < n
    ensures buffer[head] == 1 && Ring(buffer[head := 0], head, 1, n)
  {
    assert Slot(head, 0) == head;
  }

  lemma AdvanceHead(buffer: seq<int>, head: nat, n: nat)
    requires Ring(buffer, head, 1, n) && 1 <= n <= SIZE
    ensures Ring(buffer, (head + 1) % SIZE, 0, n - 1)
  {
    var head' := (head + 1) % SIZE;
    forall d: nat | d < SIZE
      ensures buffer[Slot(head', d)] == if d < n - 1 then 1 else 0
    {
      var d' := if d == SIZE - 1 then 0 else d + 1;
      assert Slot(head', d) == Slot(head, d');
    }
  }

  // ----- what every step keeps -----

  lemma MoveTotals(ts: seq<Thread>, i: nat, t: Thread)
    requires i < |ts|
    ensures Total(ts[i := t], Held) == Total(ts, Held) - Held(ts[i]) + Held(t)
    ensures Total(ts[i := t], Placed) == Total(ts, Placed) - Placed(ts[i]) + Placed(t)
    ensures Total(ts[i := t], Critical) == Total(ts, Critical) - Critical(ts[i]) + Critical(t)
    ensures Total(ts[i := t], Emptied) == Total(ts, Emptied) - Emptied(ts[i]) + Emptied(t)
    ensures Total(ts[i := t], Filled) == Total(ts, Filled) - Filled(ts[i]) + Filled(t)
  {
    TotalUpdate(ts, i, t, Held);
    TotalUpdate(ts, i, t, Placed);
    TotalUpdate(ts, i, t, Critical);
    TotalUpdate(ts, i, t, Emptied);
    TotalUpdate(ts, i, t, Filled);
  }

  lemma StepThreads(s: State, i: nat)
    requires Enabled(s, i)
    ensures Step(s, i).threads == s.threads || Step(s, i).threads == s.threads[i := Step(s, i).threads[i]]
  {
  }

  /** How the semaphores and the mover's share change together. */
  lemma StepMovesUnits(s: State, i: nat)
    requires Enabled(s, i)
    ensures var s', t, t' := Step(s, i), s.threads[i], Step(s, i).threads[i];
      && PcOk(t') && (s.empty >= 0 && s.full >= 0 && s.mutex >= 0 ==> s'.empty >= 0 && s'.full >= 0 && s'.mutex >= 0)
      && s'.mutex + Critical(t') == s.mutex + Critical(t)
      && s'.empty + s'.full + Held(t') == s.empty + s.full + Held(t)
  {
    if s.threads[i].role.Producer? {
      ProducerMovesUnits(s, i);
    }
  }

  lemma ProducerMovesUnits(s: State, i: nat)
    requires Enabled(s, i) && s.threads[i].role.Producer?
    ensures var s', t, t' := Step(s, i), s.threads[i], Step(s, i).threads[i];
      && PcOk(t') && (s.empty >= 0 && s.full >= 0 && s.mutex >= 0 ==> s'.empty >= 0 && s'.full >= 0 && s'.mutex >= 0)
      && s'.mutex + Critical(t') == s.mutex + Critical(t)
      && s'.empty + s'.full + Held(t') == s.empty + s.full + Held(t)
  {
  }

  lemma StepKeepsCounts(s: State, i: nat)
    requires Counts(s) && Enabled(s, i)
    ensures Counts(Step(s, i))
  {
    StepThreads(s, i);
    StepMovesUnits(s, i);
    TotalUpdate(s.threads, i, Step(s, i).threads[i], Held);
    TotalUpdate(s.threads, i, Step(s, i).threads[i], Critical);
  }

  lemma StepKeepsSleepers(s: State, i: nat)
    requires Counts(s) && Sleepers(s) && Enabled(s, i)
    ensures Sleepers(Step(s, i))
  {
    if s.threads[i].pc >= 2 {
      BusyKeepsSleepers(s, i);
    } else {
      AskingKeepsSleepers(s, i);
    }
  }

  lemma AskingKeepsSleepers(s: State, i: nat)
    requires Sleepers(s) && Enabled(s, i) && s.threads[i].pc <= 1
    ensures Sleepers(Step(s, i))
  {
  }

  lemma VKeepsSleepers(s: State, sem: Sem, k: nat)
    requires Sleepers(s) && Value(s, sem) >= 0 && k > 0
    ensures Sleepers(V(s, sem, k)) && V(s, sem, k).asleep <= s.asleep
  {
  }

  lemma BusyKeepsSleepers(s: State, i: nat)
    requires Counts(s) && Sleepers(s) && Enabled(s, i) && s.threads[i].pc >= 2
    ensures Sleepers(Step(s, i))
  {
    if s.threads[i].role.Producer? {
      VKeepsSleepers(s, if s.threads[i].pc == 6 then MutexSem else FullSem, if s.threads[i].pc == 6 then 1 else 2);
    } else {
      VKeepsSleepers(s, if s.threads[i].pc == 4 then MutexSem else EmptySem, 1);
    }
  }

  /** At a statement on the buffer, the thread is alone and has room, or something to take. */
  lemma AtTheBuffer(s: State, i: nat)
    requires Counts(s) && Enabled(s, i) && Critical(s.threads[i]) == 1
    ensures Total(s.threads, Emptied) == Emptied(s.threads[i]) && Total(s.threads, Filled) == Filled(s.threads[i])
    ensures Occupied(s) + Held(s.threads[i]) - Placed(s.threads[i]) <= SIZE
    ensures s.threads[i].role.Consumer? && s.threads[i].pc <= 3 ==> 1 <= Occupied(s)
  {
    TotalAlone(s.threads, i, Critical, Emptied);
    TotalAlone(s.threads, i, Critical, Filled);
    HeldNotPlaced(s.threads, i);
    TotalCovers(s.threads, i, Placed);
  }

  lemma ProducerKeepsBuffer(s: State, i: nat)
    requires Counts(s) && Buffer(s) && Enabled(s, i) && s.threads[i].role.Producer? && 2 <= s.threads[i].pc <= 5
    ensures Buffer(Step(s, i))
  {
    AtTheBuffer(s, i);
    if s.threads[i].pc == 2 || s.threads[i].pc == 4 {
      ProducerFills(s, i);
    } else {
      ProducerAdvances(s, i);
    }
  }

  lemma ProducerFills(s: State, i: nat)
    requires Buffer(s) && Enabled(s, i) && s.threads[i].role.Producer? && s.threads[i].pc in {2, 4}
    requires Total(s.threads, Emptied) == 0 && Total(s.threads, Filled) == 0 && Occupied(s) < SIZE
    ensures Buffer(Step(s, i))
  {
    MoveTotals(s.threads, i, Step(s, i).threads[i]);
    FillSlot(s.buffer, s.head, Occupied(s));
  }

  lemma NextSlot(head: nat, n: nat)
    requires head < SIZE && n < SIZE
    ensures (Slot(head, n) + 1) % SIZE == Slot(head, n + 1)
  {
  }

  lemma ProducerAdvances(s: State, i: nat)
    requires Buffer(s) && Enabled(s, i) && s.threads[i].role.Producer? && s.threads[i].pc in {3, 5}
    requires Total(s.threads, Filled) == 1 && Occupied(s) < SIZE
    ensures Buffer(Step(s, i))
  {
    NextSlot(s.head, Occupied(s));
    MoveTotals(s.threads, i, Step(s, i).threads[i]);
  }

  lemma ConsumerKeepsBuffer(s: State, i: nat)
    requires Counts(s) && Buffer(s) && Enabled(s, i) && s.threads[i].role.Consumer? && 2 <= s.threads[i].pc <= 3
    ensures Buffer(Step(s, i))
  {
    AtTheBuffer(s, i);
    if s.threads[i].pc == 2 {
      ConsumerEmpties(s, i);
    } else {
      ConsumerAdvances(s, i);
    }
  }

  lemma ConsumerEmpties(s: State, i: nat)
    requires Buffer(s) && Enabled(s, i) && s.threads[i].role.Consumer? && s.threads[i].pc == 2
    requires Total(s.threads, Emptied) == 0 && Total(s.threads, Filled) == 0 && 1 <= Occupied(s)
    ensures Buffer(Step(s, i))
  {
    MoveTotals(s.threads, i, Step(s, i).threads[i]);
    EmptySlot(s.buffer, s.head, Occupied(s));
  }

  lemma ConsumerAdvances(s: State, i: nat)
    requires Buffer(s) && Enabled(s, i) && s.threads[i].role.Consumer? && s.threads[i].pc == 3
    requires Total(s.threads, Emptied) == 1 && Total(s.threads, Filled) == 0 && 1 <= Occupied(s)
    ensures Buffer(Step(s, i))
  {
    MoveTotals(s.threads, i, Step(s, i).threads[i]);
    AdvanceHead(s.buffer, s.head, Occupied(s));
    SameTail(s.head, Occupied(s));
  }

  lemma SameTail(head: nat, n: nat)
    requires head < SIZE && 1 <= n
    ensures Slot((head + 1) % SIZE, n - 1) == Slot(head, n)
  {
  }

  predicate AtSemaphore(t: Thread)
  {
    t.pc <= 1 || t.pc >= (if t.role.Producer? then 6 else 4)
  }

  /** A semaphore call moves units between the semaphore and the thread. */
  lemma SemKeepsTotals(s: State, i: nat)
    requires Enabled(s, i) && AtSemaphore(s.threads[i])
    ensures Occupied(Step(s, i)) == Occupied(s)
    ensures Total(Step(s, i).threads, Emptied) == Total(s.threads, Emptied)
    ensures Total(Step(s, i).threads, Filled) == Total(s.threads, Filled)
  {
    StepThreads(s, i);
    MoveTotals(s.threads, i, Step(s, i).threads[i]);
  }

  lemma SemKeepsBuffer(s: State, i: nat)
    requires Buffer(s) && Enabled(s, i) && AtSemaphore(s.threads[i])
    ensures Buffer(Step(s, i))
  {
    SemKeepsTotals(s, i);
    assert Step(s, i).buffer == s.buffer && Step(s, i).head == s.head && Step(s, i).tail == s.tail;
  }

  lemma StepKeepsInv(s: State, i: nat)
    requires Inv(s) && Enabled(s, i)
    ensures Inv(Step(s, i))
  {
    StepKeepsCounts(s, i);
    StepKeepsSleepers(s, i);
    if AtSemaphore(s.threads[i]) {
      SemKeepsBuffer(s, i);
    } else if s.threads[i].role.Producer? {
      ProducerKeepsBuffer(s, i);
    } else {
      ConsumerKeepsBuffer(s, i);
    }
  }

  // ----- runs -----

  ghost predicate Initial(s: State)
  {
    && s.empty == SIZE && s.full == 0 && s.mutex == 1 && s.head == s.tail == 0 && s.asleep == {}
    && |s.buffer| == SIZE && (forall d :: 0 <= d < SIZE ==> s.buffer[d] == 0)
    && forall i :: 0 <= i < |s.threads| ==> s.threads[i].pc == 0
  }

  lemma {:induction false} NothingYet(ts: seq<Thread>)
    requires forall i :: 0 <= i < |ts| ==> ts[i].pc == 0
    ensures Total(ts, Held) == Total(ts, Placed) == Total(ts, Critical) == Total(ts, Emptied) == Total(ts, Filled) == 0
  {
    if ts != [] {
      NothingYet(ts[1..]);
    }
  }

  datatype Run = Start(s: State) | Then(prev: Run, i: nat, s: State)

  ghost predicate IsRun(r: Run)
  {
    match r
    case Start(s) => Initial(s)
    case Then(prev, i, s) => IsRun(prev) && Enabled(prev.s, i) && s == Step(prev.s, i)
  }

  lemma {:induction false} RunKeepsInv(r: Run)
    requires IsRun(r)
    ensures Inv(r.s)
  {
    match r
    case Start(s) => NothingYet(s.threads);
    case Then(prev, i, s) =>
      RunKeepsInv(prev);
      StepKeepsInv(prev.s, i);
  }

  /** The semaphores are never negative, and what they hold and what is in flight is the buffer. */
  lemma UnitsAreConserved(r: Run)
    requires IsRun(r)
    ensures r.s.empty >= 0 && r.s.full >= 0 && 0 <= r.s.mutex <= 1
    ensures r.s.empty + r.s.full + Total(r.s.threads, Held) == 8
  {
    RunKeepsInv(r);
  }

  /** At most one thread is between its mut_p and its mut_v. */
  lemma MutualExclusion(r: Run, i: nat, j: nat)
    requires IsRun(r) && i < |r.s.threads| && j < |r.s.threads|
    requires Critical(r.s.threads[i]) == 1 && Critical(r.s.threads[j]) == 1
    ensures i == j
  {
    RunKeepsInv(r);
    if i != j {
      var t := Thread(Producer, 0, 0);
      TotalUpdate(r.s.threads, i, t, Critical);
      TotalCovers(r.s.threads[i := t], j, Critical);
    }
  }

  /** Nothing is overwritten before it is consumed, and nothing is consumed twice. */
  lemma NoSlotIsOverwritten(r: Run, i: nat)
    requires IsRun(r) && Enabled(r.s, i)
    ensures r.s.threads[i].role.Producer? && r.s.threads[i].pc in {2, 4} ==> r.s.buffer[r.s.tail] == 0
    ensures r.s.threads[i].role.Consumer? && r.s.threads[i].pc == 2 ==> r.s.buffer[r.s.head] == 1
  {
    RunKeepsInv(r);
    if Critical(r.s.threads[i]) == 1 {
      AtTheBuffer(r.s, i);
      if r.s.threads[i].role.Consumer? && r.s.threads[i].pc == 2 {
        EmptySlot(r.s.buffer, r.s.head, Occupied(r.s));
      }
    }
  }

  /** At every moment the full slots are those from head up to tail, less the one a consumer has
      just emptied at head, plus the one a producer has just filled at tail. */
  lemma FullSlotsFromHeadToTail(r: Run, d: nat)
    requires IsRun(r) && d < SIZE
    ensures |r.s.buffer| == SIZE && r.s.head < SIZE
    ensures 0 <= Occupied(r.s) <= SIZE && r.s.tail == (r.s.head + Occupied(r.s)) % SIZE
    ensures r.s.buffer[(r.s.head + d) % SIZE] ==
      if Total(r.s.threads, Emptied) <= d < Occupied(r.s) + Total(r.s.threads, Filled) then 1 else 0
  {
    RunKeepsInv(r);
    assert Slot(r.s.head, d) == (r.s.head + d) % SIZE;
  }

  /** While nobody is at the buffer, there are no such slots. */
  lemma NobodyAtTheBuffer(r: Run)
    requires IsRun(r) && r.s.mutex == 1
    ensures Total(r.s.threads, Emptied) == 0 && Total(r.s.threads, Filled) == 0
  {
    RunKeepsInv(r);
    TotalZero(r.s.threads, Critical, Emptied);
    TotalZero(r.s.threads, Critical, Filled);
  }

  lemma SleeperLacksUnits(r: Run, i: nat)
    requires IsRun(r) && i in r.s.asleep
    ensures i < |r.s.threads| && Value(r.s, Wants(r.s.threads[i])) < Units(r.s.threads[i])
  {
    RunKeepsInv(r);
  }
}
