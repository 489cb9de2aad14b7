/**
  The round-robin scheduler (src/scheduler_class.c:97-115): a cursor sweeps over the process table.

  A call of the scheduler moves the cursor to the next ready process and switches to it; when that
  process gives up the processor the cursor steps past it.  If the sweep reaches the end of the
  table, the cursor is wound back and the call reports that it found nobody.  Everything that
  processes and interrupts do to the table in between is arbitrary.
 */
module RoundRobin {
  import KernelState

  type Stat = KernelState.Stat

  const NPROC: nat := KernelState.NPROC

  /** `away` holds while the process under the cursor has the processor. */
  datatype State = State(stats: seq<Stat>, cursor: nat, away: bool)

  predicate Ok(s: State)
  {
    |s.stats| == NPROC && s.cursor <= NPROC && (s.away ==> s.cursor < NPROC)
  }

  /** Call is a call of the scheduler, Back the return of the process it switched to, and
      Others(stats) whatever else happens to the process table. */
  datatype Event = Call | Back | Others(stats: seq<Stat>)

  predicate Enabled(s: State, e: Event)
  {
    match e
    case Call => !s.away
    case Back => s.away
    case Others(stats) => |stats| == NPROC
  }

  /** The first ready slot from c on, or NPROC. */
  function NextReady(stats: seq<Stat>, c: nat): (r: nat)
    requires c <= |stats|
    ensures c <= r <= |stats| && (r < |stats| ==> stats[r].Ready?)
    ensures forall i :: c <= i < r ==> !stats[i].Ready?
    decreases |stats| - c
  {
    if c == |stats| || stats[c].Ready? then c else NextReady(stats, c + 1)
  }

  function Step(s: State, e: Event): (r: State)
    requires Ok(s) && Enabled(s, e)
    ensures Ok(r)
  {
    match e
    case Call =>
      var p := NextReady(s.stats, s.cursor);
      if p == NPROC then s.(cursor := 0) else State(s.stats[p := KernelState.Running], p, true)
    case Back => s.(cursor := s.cursor + 1, away := false)
    case Others(stats) => s.(stats := stats)
  }

  /** A run from any state whatever, latest event outermost. */
  datatype Run = Start(s: State) | Then(prev: Run, e: Event, s: State)

  predicate IsRun(r: Run)
  {
    match r
    case Start(s) => Ok(s)
    case Then(prev, e, s) => IsRun(prev) && Ok(prev.s) && Enabled(prev.s, e) && s == Step(prev.s, e)
  }

  function First(r: Run): (s: State)
  {
    match r case Start(s) => s case Then(prev, _, _) => First(prev)
  }

  /** How often the scheduler switched to a process. */
  function Dispatches(r: Run): (n: nat)
  {
    match r
    case Start(_) => 0
    case Then(prev, e, s) => Dispatches(prev) + if e.Call? && s.away then 1 else 0
  }

  /** How often the scheduler found nobody. */
  function Idles(r: Run): (n: nat)
  {
    match r
    case Start(_) => 0
    case Then(prev, e, s) => Idles(prev) + if e.Call? && !s.away then 1 else 0
  }

  /** Process q is ready, and not running, all the time. */
  predicate StaysReady(r: Run, q: nat)
  {
    q < |r.s.stats| && r.s.stats[q].Ready? && (r.Then? ==> StaysReady(r.prev, q))
  }

  /** Where the sweep goes on. */
  function Position(s: State): (c: nat) { if s.away then s.cursor + 1 else s.cursor }

  /** The cyclic distance from the sweep to slot q. */
  function Distance(s: State, q: nat): (d: int)
  {
    if Position(s) <= q then q - Position(s) else NPROC - Position(s) + q
  }

  function Behind(s: State, q: nat): (n: nat) { if Position(s) <= q then 0 else 1 }

  lemma StepCloser(s: State, e: Event, q: nat)
    requires Ok(s) && Enabled(s, e) && q < NPROC && s.stats[q].Ready? && Step(s, e).stats[q].Ready?
    ensures var s' := Step(s, e);
      && Distance(s', q) + (if e.Call? && s'.away then 1 else 0) <= Distance(s, q)
      && Behind(s', q) + (if e.Call? && !s'.away then 1 else 0) <= Behind(s, q)
  {
  }

  lemma {:induction false} RunCloser(r: Run, q: nat)
    requires IsRun(r) && StaysReady(r, q) && q < NPROC
    ensures Ok(First(r)) && Ok(r.s)
    ensures Dispatches(r) + Distance(r.s, q) <= Distance(First(r), q)
    ensures Idles(r) + Behind(r.s, q) <= Behind(First(r), q)
  {
    if r.Then? {
      RunCloser(r.prev, q);
      StepCloser(r.prev.s, r.e, q);
    }
  }

  /** Bounded waiting: while a process stays ready, at most NPROC - 1 others are dispatched, and at
      most one call of the scheduler finds nobody. */
  lemma BoundedWaiting(r: Run, q: nat)
    requires IsRun(r) && StaysReady(r, q) && q < NPROC
    ensures Dispatches(r) <= 63 && Idles(r) <= 1
  {
    RunCloser(r, q);
  }

  /** So once NPROC - 1 others were dispatched, the next call either switches to q, or winds the
      cursor back and leaves q to the call after it. */
  lemma ThenItsTurn(r: Run, q: nat)
    requires IsRun(r) && StaysReady(r, q) && q < NPROC && Dispatches(r) == NPROC - 1 && !r.s.away
    ensures Ok(r.s)
    ensures Step(r.s, Call).away ==> Step(r.s, Call).cursor == q && Step(r.s, Call).stats[q].Running?
    ensures !Step(r.s, Call).away ==>
      var s := Step(Step(r.s, Call), Call); s.away && s.cursor == q && s.stats[q].Running?
  {
    RunCloser(r, q);
    var s := Step(r.s, Call);
    if s.stats[q].Ready? {
      StepCloser(r.s, Call, q);
      assert Distance(s, q) == 0;
    }
  }

  /** The bound is exact: with everybody always ready, n others can come first for every
      n up to NPROC - 1. */
  lemma {:induction false} BoundIsReached(all: seq<Stat>, q: nat, n: nat) returns (r: Run)
    requires |all| == NPROC && q < NPROC && n <= NPROC - 1 && forall i :: 0 <= i < NPROC ==> all[i].Ready?
    ensures IsRun(r) && StaysReady(r, q) && Dispatches(r) == n
    ensures Ok(r.s) && r.s.stats == all && !r.s.away
    ensures Distance(r.s, q) == NPROC - 1 - n
  {
    if n == 0 {
      r := Start(State(all, q + 1, false));
    } else {
      r := BoundIsReached(all, q, n - 1);
      if r.s.cursor == NPROC {
        r := Then(r, Call, Step(r.s, Call));
      }
      r := Dispatched(r, q);
    }
  }

  lemma Dispatched(r: Run, q: nat) returns (r': Run)
    requires IsRun(r) && StaysReady(r, q) && q < NPROC && Ok(r.s) && !r.s.away && r.s.cursor < NPROC && r.s.cursor != q
    requires forall i :: 0 <= i < NPROC ==> r.s.stats[i].Ready?
    ensures IsRun(r') && StaysReady(r', q) && Dispatches(r') == Dispatches(r) + 1
    ensures r'.s == State(r.s.stats, r.s.cursor + 1, false)
  {
    var a := Then(r, Call, Step(r.s, Call));
    var b := Then(a, Others(r.s.stats), Step(a.s, Others(r.s.stats)));
    r' := Then(b, Back, Step(b.s, Back));
    assert StaysReady(a, q);
    assert a.s.away && Dispatches(a) == Dispatches(r) + 1;
    assert Dispatches(b) == Dispatches(a);
  }

  /** The scheduler itself. */
  class Scheduler {
    var stats: seq<Stat>
    var cursor: nat
    var away: bool

    /** One call up to the switch. */
    method Body() returns (found: bool)
      requires Ok(State(stats, cursor, away)) && !away
      modifies this
      ensures State(stats, cursor, away) == Step(old(State(stats, cursor, away)), Call) && found == away
    {
      ghost var p := NextReady(stats, cursor);
      while cursor < NPROC
        invariant |stats| == NPROC && cursor <= p <= NPROC && p == NextReady(stats, cursor)
        invariant stats == old(stats) && !away
      {
        if !stats[cursor].Ready? {
          cursor := cursor + 1;
          continue;
        }
        stats := stats[cursor := KernelState.Running];
        away := true;
        return true;
      }
      cursor := 0;
      return false;
    }

    /** The return from the switch. */
    method Resume()
      requires Ok(State(stats, cursor, away)) && away
      modifies this`cursor, this`away
      ensures State(stats, cursor, away) == Step(old(State(stats, cursor, away)), Back)
    {
      cursor := cursor + 1;
      away := false;
    }
  }
}
