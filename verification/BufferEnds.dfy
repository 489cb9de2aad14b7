/**
  Producers and consumers whose rounds match (src/consumer.c:128-187: four times ten rounds of two
  items against four times twenty rounds of one) all finish: there is no deadlock, and there is no
  run without end.
 */
module BufferEnds {
  import opened BufferState

  // ----- items still to be made and to be taken -----

  function ToMake(t: Thread): (n: nat) { if t.role.Producer? then 2 * t.left else 0 }

  /** A consumer past its sem_p has taken the item of its current round. */
  function ToTake(t: Thread): (n: nat)
  {
    if t.role.Producer? then 0 else if t.pc >= 1 && t.left > 0 then t.left - 1 else t.left
  }

  /** What is full and still to be made, against what is still to be taken. */
  function Surplus(s: State): (n: int) { s.full + Total(s.threads, ToMake) - Total(s.threads, ToTake) }

  lemma StepKeepsSurplusOf(s: State, i: nat)
    requires Enabled(s, i)
    ensures var s', t, t' := Step(s, i), s.threads[i], Step(s, i).threads[i];
      s'.full + ToMake(t') - ToTake(t') == s.full + ToMake(t) - ToTake(t)
  {
  }

  lemma StepKeepsSurplus(s: State, i: nat)
    requires Enabled(s, i)
    ensures Surplus(Step(s, i)) == Surplus(s)
  {
    StepThreads(s, i);
    StepKeepsSurplusOf(s, i);
    TotalUpdate(s.threads, i, Step(s, i).threads[i], ToMake);
    TotalUpdate(s.threads, i, Step(s, i).threads[i], ToTake);
  }

  function First(r: Run): (s: State)
  {
    match r case Start(s) => s case Then(prev, _, _) => First(prev)
  }

  lemma {:induction false} RunKeepsSurplus(r: Run)
    requires IsRun(r)
    ensures Surplus(r.s) == Surplus(First(r))
  {
    if r.Then? {
      RunKeepsSurplus(r.prev);
      StepKeepsSurplus(r.prev.s, r.i);
    }
  }

  // ----- no deadlock -----

  ghost predicate Stuck(s: State)
  {
    forall i :: 0 <= i < |s.threads| ==> i in s.asleep || Finished(s.threads[i])
  }

  /** If nobody can go on, everybody is at the head of its loop and nothing is in flight. */
  lemma StuckAtTheHead(s: State)
    requires Counts(s) && Sleepers(s) && Stuck(s)
    ensures forall i :: 0 <= i < |s.threads| ==> s.threads[i].pc == 0
    ensures s.empty + s.full == SIZE
  {
    NobodyCritical(s.threads);
    NothingYet(s.threads);
  }

  lemma {:induction false} NobodyCritical(ts: seq<Thread>)
    requires forall i :: 0 <= i < |ts| ==> ts[i].pc <= 1
    ensures Total(ts, Critical) == 0
  {
    if ts != [] {
      NobodyCritical(ts[1..]);
    }
  }

  lemma {:induction false} NothingLeft(ts: seq<Thread>, role: Role)
    requires forall i :: 0 <= i < |ts| && ts[i].role == role ==> ts[i].left == 0
    ensures role.Producer? ==> Total(ts, ToMake) == 0
    ensures role.Consumer? ==> Total(ts, ToTake) == 0
  {
    if ts != [] {
      NothingLeft(ts[1..], role);
    }
  }

  /** An unfinished producer that sleeps and an unfinished consumer that sleeps exclude each other,
      and neither kind can be left alone. */
  lemma StuckIsFinished(s: State, i: nat)
    requires Counts(s) && Sleepers(s) && Stuck(s) && Surplus(s) == 0 && i < |s.threads|
    ensures Finished(s.threads[i])
  {
    StuckAtTheHead(s);
    if c: nat :| c < |s.threads| && s.threads[c].role.Consumer? && s.threads[c].left > 0 {
      assert s.full == 0;
      NothingLeft(s.threads, Producer);
      TotalCovers(s.threads, c, ToTake);
      assert false;
    }
    NothingLeft(s.threads, Consumer);
    assert s.full == 0;
  }

  /** With matching rounds, a run that cannot go on has all threads finished. */
  lemma EverybodyFinishes(r: Run, i: nat)
    requires IsRun(r) && Surplus(First(r)) == 0 && Stuck(r.s) && i < |r.s.threads|
    ensures Finished(r.s.threads[i])
  {
    RunKeepsInv(r);
    RunKeepsSurplus(r);
    StuckIsFinished(r.s, i);
  }

  /** The threads of the program match. */
  lemma ProgramMatches(s: State)
    requires Initial(s) && |s.threads| == 8
    requires forall i :: 0 <= i < 4 ==> s.threads[i] == Thread(Producer, 0, 10)
    requires forall i :: 4 <= i < 8 ==> s.threads[i] == Thread(Consumer, 0, 20)
    ensures Surplus(s) == 0
  {
    var p, c := Thread(Producer, 0, 10), Thread(Consumer, 0, 20);
    assert s.threads == [p, p, p, p, c, c, c, c];
    Unroll(p, c, ToMake);
    Unroll(p, c, ToTake);
  }

  lemma Unroll(p: Thread, c: Thread, f: Thread -> nat)
    ensures Total([p, p, p, p, c, c, c, c], f) == 4 * f(p) + 4 * f(c)
  {
    var four := [c, c, c, c];
    assert [c, c][1..] == [c] && [c, c, c][1..] == [c, c] && four[1..] == [c, c, c];
    assert Total([c], f) == f(c);
    assert Total([c, c], f) == 2 * f(c);
    assert Total(four, f) == 4 * f(c);
    assert ([p] + four)[1..] == four && ([p, p] + four)[1..] == [p] + four;
    assert ([p, p, p] + four)[1..] == [p, p] + four && ([p, p, p, p] + four)[1..] == [p, p, p] + four;
    assert Total([p, p] + four, f) == 2 * f(p) + 4 * f(c);
    assert [p, p, p, p] + four == [p, p, p, p, c, c, c, c];
  }

  // ----- no run without end -----

  /** Statements still to be executed. */
  function ToDo(t: Thread): (n: nat)
  {
    var all := (if t.role.Producer? then 8 else 6) * t.left;
    if t.pc <= all then all - t.pc else 0
  }

  /** A step either puts its thread to sleep or gets on with the work. */
  lemma StepWorks(s: State, i: nat)
    requires Enabled(s, i)
    ensures var s' := Step(s, i);
      || (s'.threads == s.threads && s'.asleep == s.asleep + {i})
      || (&& ToDo(s'.threads[i]) < ToDo(s.threads[i]) && s'.threads == s.threads[i := s'.threads[i]]
          && s'.asleep <= s.asleep)
  {
  }

  lemma {:induction false} Bounded(s: set<nat>, n: nat)
    requires forall x :: x in s ==> x < n
    ensures |s| <= n
  {
    if n > 0 {
      Bounded(s - {n - 1}, n - 1);
      assert s <= (s - {n - 1}) + {n - 1};
      assert |s| <= |s - {n - 1}| + 1;
    } else {
      assert s == {};
    }
  }

  /** Falls with every step: the work, and the threads awake. */
  function Potential(s: State): (n: int)
  {
    Times(Total(s.threads, ToDo), |s.threads| + 1) + |s.threads| - |s.asleep|
  }

  /** a times m. */
  function Times(a: nat, m: nat): (n: nat)
  {
    if a == 0 then 0 else m + Times(a - 1, m)
  }

  lemma {:induction false} TimesGrows(a: nat, b: nat, m: nat)
    requires a < b
    ensures Times(a, m) + m <= Times(b, m)
  {
    if a < b - 1 {
      TimesGrows(a, b - 1, m);
    }
  }

  lemma PotentialFalls(s: State, i: nat)
    requires Sleepers(s) && Enabled(s, i)
    ensures Potential(Step(s, i)) < Potential(s)
  {
    StepWorks(s, i);
    Bounded(s.asleep, |s.threads|);
    StepThreads(s, i);
    if Step(s, i).threads != s.threads {
      WorkFalls(s, Step(s, i), i);
    }
  }

  lemma WorkFalls(s: State, s': State, i: nat)
    requires i < |s.threads| == |s'.threads| && |s.asleep| <= |s.threads| && s'.threads == s.threads[i := s'.threads[i]]
    requires ToDo(s'.threads[i]) < ToDo(s.threads[i])
    ensures Potential(s') < Potential(s)
  {
    TotalUpdate(s.threads, i, s'.threads[i], ToDo);
    TimesGrows(Total(s'.threads, ToDo), Total(s.threads, ToDo), |s.threads| + 1);
  }

  function Length(r: Run): (n: nat)
  {
    match r case Start(_) => 0 case Then(prev, _, _) => Length(prev) + 1
  }

  /** No run is longer than the potential it starts with. */
  lemma {:induction false} EveryRunEnds(r: Run)
    requires IsRun(r)
    ensures 0 <= Potential(r.s) && Length(r) <= Potential(First(r)) - Potential(r.s)
  {
    RunKeepsInv(r);
    Bounded(r.s.asleep, |r.s.threads|);
    if r.Then? {
      EveryRunEnds(r.prev);
      RunKeepsInv(r.prev);
      PotentialFalls(r.prev.s, r.i);
    }
  }
}
