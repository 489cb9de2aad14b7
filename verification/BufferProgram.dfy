/**
  The calls `sem_P`, `sem_V`, `mutex_P`, `mutex_V` (src/semaphore.c) and the statements of
  `producerFun` and `consumerFun` (src/consumer.c) on their shared variables, as runs of `BufferState`.
 */
module BufferProgram {
  import opened BufferState

  class Shared {
    var empty: int
    var full: int
    var mutex: int
    const buffer: array<int>
    var head: nat
    var tail: nat
    var threads: seq<Thread>
    var asleep: set<nat>
    ghost var run: Run

    ghost function View(): (s: State)
      reads this, buffer
    {
      State(empty, full, mutex, buffer[..], head, tail, threads, asleep)
    }

    ghost predicate Valid()
      reads this, buffer
    {
      IsRun(run) && run.s == View()
    }

    constructor (threads: seq<Thread>)
      requires forall i :: 0 <= i < |threads| ==> threads[i].pc == 0
      ensures Valid() && fresh(buffer) && this.threads == threads
    {
      empty, full, mutex, head, tail, asleep := SIZE, 0, 1, 0, 0, {};
      buffer := new int[SIZE](_ => 0);
      this.threads := threads;
      new;
      run := Start(View());
    }

    method Get(sem: Sem) returns (v: int)
      ensures v == Value(View(), sem)
    {
      match sem
      case EmptySem => v := empty;
      case FullSem => v := full;
      case MutexSem => v := mutex;
    }

    method Set(sem: Sem, v: int)
      modifies this`empty, this`full, this`mutex
      ensures View() == SetValue(old(View()), sem, v)
    {
      match sem
      case EmptySem => empty := v;
      case FullSem => full := v;
      case MutexSem => mutex := v;
    }

    method Move(i: nat, pc: nat)
      requires i < |threads|
      modifies this`threads
      ensures View() == Moved(old(View()), i, pc)
    {
      threads := threads[i := threads[i].(pc := pc)];
    }

    /** `wakeup` on a semaphore scans all threads. */
    method Wakeup(sem: Sem)
      modifies this`asleep
      ensures View() == Wake(old(View()), sem)
    {
      for j := 0 to |threads|
        invariant forall p: nat :: p in asleep <==> p in old(asleep) && !(p < j && Wants(threads[p]) == sem)
      {
        if Wants(threads[j]) == sem {
          asleep := asleep - {j};
        }
      }
    }

    /** `sem_P` or `mutex_P`, whichever thread i is at, up to its sleep or its return. */
    method SemP(i: nat)
      requires i < |threads|
      modifies this
      ensures View() == P(old(View()), i)
    {
      var t := threads[i];
      var v := Get(Wants(t));
      if v <= Units(t) - 1 {
        asleep := asleep + {i};
      } else {
        Set(Wants(t), v - Units(t));
        Move(i, t.pc + 1);
      }
    }

    /** `sem_V` or `mutex_V`. */
    method SemV(sem: Sem, k: int)
      modifies this
      ensures View() == V(old(View()), sem, k)
    {
      var v := Get(sem);
      Set(sem, v + k);
      if v + k > 0 {
        Wakeup(sem);
      }
    }

    method EndRound(i: nat)
      requires i < |threads| && threads[i].left > 0
      modifies this`threads
      ensures View() == RoundDone(old(View()), i)
    {
      threads := threads[i := threads[i].(pc := 0, left := threads[i].left - 1)];
    }

    method Produce(i: nat)
      requires Enabled(View(), i) && threads[i].role.Producer? && threads[i].pc >= 2
      modifies this, buffer
      ensures View() == Step(old(View()), i)
    {
      match threads[i].pc
      case 2 => buffer[tail] := 1; Move(i, 3);
      case 3 => tail := (tail + 1) % SIZE; Move(i, 4);
      case 4 => buffer[tail] := 1; Move(i, 5);
      case 5 => tail := (tail + 1) % SIZE; Move(i, 6);
      case 6 => SemV(MutexSem, 1); Move(i, 7);
      case _ => SemV(FullSem, 2); EndRound(i);
    }

    method Consume(i: nat)
      requires Enabled(View(), i) && threads[i].role.Consumer? && threads[i].pc >= 2
      modifies this, buffer
      ensures View() == Step(old(View()), i)
    {
      match threads[i].pc
      case 2 => buffer[head] := 0; Move(i, 3);
      case 3 => head := (head + 1) % SIZE; Move(i, 4);
      case 4 => SemV(MutexSem, 1); Move(i, 5);
      case _ => SemV(EmptySem, 1); EndRound(i);
    }

    /** The next statement of thread i. */
    method Statement(i: nat)
      requires Valid() && i < |threads| && i !in asleep && !Finished(threads[i])
      modifies this, buffer
      ensures Valid() && run == Then(old(run), i, View())
    {
      ghost var r := run;
      RunKeepsInv(r);
      if threads[i].pc <= 1 {
        SemP(i);
      } else if threads[i].role.Producer? {
        Produce(i);
      } else {
        Consume(i);
      }
      run := Then(r, i, View());
    }
  }
}
