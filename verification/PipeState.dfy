/**
  Pipes (src/pipe.c) with any number of readers and writers.

  A call runs unpreempted from one sleep to the next, so the steps are: a process enters a call, a
  process in a call runs until it sleeps or returns, an end is closed, a process is killed.  The
  counters wrap modulo 2^32 as in the original; the histories `put` and `got` of all bytes that
  went in and came out are kept beside them.
 */
module PipeState {
  import opened Common

  const PIPESIZE: nat := 512

  datatype Ring = Ring(data: seq<byte>, nread: nat, nwrite: nat, put: seq<byte>, got: seq<byte>)

  predicate Full(r: Ring) { r.nwrite == (r.nread + PIPESIZE) % UINT }

  predicate Empty(r: Ring) { r.nread == r.nwrite }

  /** Enter one byte. */
  function PutByte(r: Ring, b: byte): (r': Ring)
    requires |r.data| == PIPESIZE
    ensures |r'.data| == PIPESIZE
  {
    Ring(r.data[r.nwrite % PIPESIZE := b], r.nread, (r.nwrite + 1) % UINT, r.put + [b], r.got)
  }

  /** Take one byte. */
  function TakeByte(r: Ring): (r': Ring)
    requires |r.data| == PIPESIZE
    ensures |r'.data| == PIPESIZE
  {
    r.(nread := (r.nread + 1) % UINT, got := r.got + [r.data[r.nread % PIPESIZE]])
  }

  /** Enter the bytes of bs until none is left or the ring is full. */
  function Fill(r: Ring, bs: seq<byte>): (r': Ring)
    requires |r.data| == PIPESIZE
    ensures |r'.data| == PIPESIZE
    decreases |bs|
  {
    if bs == [] || Full(r) then r else Fill(PutByte(r, bs[0]), bs[1..])
  }

  /** What Fill leaves over. */
  function Rest(r: Ring, bs: seq<byte>): (rest: seq<byte>)
    requires |r.data| == PIPESIZE
    decreases |bs|
  {
    if bs == [] || Full(r) then bs else Rest(PutByte(r, bs[0]), bs[1..])
  }

  /** Take up to n bytes. */
  function Drain(r: Ring, n: nat): (r': Ring)
    requires |r.data| == PIPESIZE
    ensures |r'.data| == PIPESIZE
    decreases n
  {
    if n == 0 || Empty(r) then r else Drain(TakeByte(r), n - 1)
  }

  // ----- the ring against the histories -----

  function Count(r: Ring): (n: int) { |r.put| - |r.got| }

  /** The bytes in the ring are those that went in and have not come out, and the wrapped counters
      are the lengths of the histories. */
  ghost predicate RingOk(r: Ring)
  {
    && |r.data| == PIPESIZE
    && |r.got| <= |r.put| <= |r.got| + PIPESIZE
    && r.nread == |r.got| % UINT && r.nwrite == |r.put| % UINT
    && r.got == r.put[..|r.got|]
    && forall i :: |r.got| <= i < |r.put| ==> r.data[i % PIPESIZE] == r.put[i]
  }

  lemma ModTwice(n: nat)
    ensures n % UINT % PIPESIZE == n % PIPESIZE
  {
    var q := n / UINT;
    assert n == q * UINT + n % UINT && UINT == PIPESIZE * 0x80_0000;
    ModAdd(n % UINT, q * 0x80_0000);
  }

  lemma ModAdd(a: nat, k: nat)
    ensures (a + k * PIPESIZE) % PIPESIZE == a % PIPESIZE
  {
  }

  /** The wrapped tests agree with the unbounded counters. */
  lemma TestsAgree(r: Ring)
    requires RingOk(r)
    ensures Full(r) <==> Count(r) == PIPESIZE
    ensures Empty(r) <==> Count(r) == 0
  {
  }

  lemma Slots(i: nat, j: nat)
    requires i < j < i + PIPESIZE
    ensures i % PIPESIZE != j % PIPESIZE
  {
  }

  lemma Wraps(n: nat)
    ensures (n % UINT + 1) % UINT == (n + 1) % UINT
  {
  }

  /** The slot of the next byte is not that of a byte in the ring. */
  lemma NextSlotFree(data: seq<byte>, put: seq<byte>, from: nat, b: byte)
    requires |data| == PIPESIZE && from <= |put| < from + PIPESIZE
    requires forall i :: from <= i < |put| ==> data[i % PIPESIZE] == put[i]
    ensures forall i :: from <= i < |put| + 1 ==> data[|put| % PIPESIZE := b][i % PIPESIZE] == (put + [b])[i]
  {
    forall i | from <= i < |put| + 1
      ensures data[|put| % PIPESIZE := b][i % PIPESIZE] == (put + [b])[i]
    {
      if i < |put| {
        Slots(i, |put|);
      }
    }
  }

  lemma PutByteOk(r: Ring, b: byte)
    requires RingOk(r) && !Full(r)
    ensures RingOk(PutByte(r, b))
  {
    TestsAgree(r);
    ModTwice(|r.put|);
    Wraps(|r.put|);
    NextSlotFree(r.data, r.put, |r.got|, b);
  }

  lemma TakeByteOk(r: Ring)
    requires RingOk(r) && !Empty(r)
    ensures RingOk(TakeByte(r)) && Count(TakeByte(r)) == Count(r) - 1
    ensures TakeByte(r).got == r.got + [r.put[|r.got|]]
  {
    TestsAgree(r);
    ModTwice(|r.got|);
    Wraps(|r.got|);
  }

  lemma EnterFirst(put: seq<byte>, bs: seq<byte>, k: nat)
    requires 1 <= k <= |bs|
    ensures put + bs[..k] == put + [bs[0]] + bs[1..][..k - 1] && bs[1..][k - 1..] == bs[k..]
  {
  }

  /** Writing enters as many bytes as there is room for, in order. */
  lemma {:induction false} FillEnters(r: Ring, bs: seq<byte>)
    requires RingOk(r)
    ensures RingOk(Fill(r, bs)) && Fill(r, bs).got == r.got
    ensures var k := Min(PIPESIZE - Count(r), |bs|); Fill(r, bs).put == r.put + bs[..k] && Rest(r, bs) == bs[k..]
    decreases |bs|
  {
    TestsAgree(r);
    if bs != [] && !Full(r) {
      PutByteOk(r, bs[0]);
      FillEnters(PutByte(r, bs[0]), bs[1..]);
      EnterFirst(r.put, bs, Min(PIPESIZE - Count(r), |bs|));
    }
  }

  /** Reading takes the oldest bytes, as many as asked for or as there are. */
  lemma {:induction false} DrainTakes(r: Ring, n: nat)
    requires RingOk(r)
    ensures RingOk(Drain(r, n)) && Drain(r, n).put == r.put
    ensures Drain(r, n).got == r.put[..|r.got| + Min(n, Count(r))]
    decreases n
  {
    TestsAgree(r);
    if n != 0 && !Empty(r) {
      TakeByteOk(r);
      DrainTakes(TakeByte(r), n - 1);
    }
  }

  // ----- readers and writers -----

  /** A call in progress: the bytes still to be written, or the number wanted. */
  datatype Caller = Writer(rest: seq<byte>) | Reader(n: nat)

  /** Processes are named by numbers.  `sleepingReaders` wait on `nread`, `sleepingWriters` on `nwrite`. */
  datatype State = State(
    ring: Ring, readopen: bool, writeopen: bool, callers: map<nat, Caller>,
    sleepingReaders: set<nat>, sleepingWriters: set<nat>, killed: set<nat>)

  datatype Event = Call(pid: nat, caller: Caller) | Go(pid: nat) | Close(writable: bool) | Kill(pid: nat)

  ghost predicate Enabled(s: State, e: Event)
  {
    && (s.readopen || s.writeopen)
    && |s.ring.data| == PIPESIZE
    && match e
       case Call(pid, _) => pid !in s.callers
       case Go(pid) => pid in s.callers && pid !in s.sleepingReaders && pid !in s.sleepingWriters
       case Close(writable) => if writable then s.writeopen else s.readopen
       case Kill(_) => true
  }

  ghost function Remove(m: map<nat, Caller>, pid: nat): (r: map<nat, Caller>)
    ensures forall p :: p in r <==> p in m && p != pid
    ensures forall p :: p in r ==> r[p] == m[p]
  {
    m - {pid}
  }

  ghost function GoWriter(s: State, pid: nat, bs: seq<byte>): (s': State)
    requires |s.ring.data| == PIPESIZE
  {
    var ring, rest := Fill(s.ring, bs), Rest(s.ring, bs);
    if rest == [] then
      s.(ring := ring, callers := Remove(s.callers, pid), sleepingReaders := {})
    else if !s.readopen || pid in s.killed then
      s.(ring := ring, callers := Remove(s.callers, pid))
    else
      s.(ring := ring, callers := s.callers[pid := Writer(rest)], sleepingReaders := {},
         sleepingWriters := s.sleepingWriters + {pid})
  }

  ghost function GoReader(s: State, pid: nat, n: nat): (s': State)
    requires |s.ring.data| == PIPESIZE
  {
    if Empty(s.ring) && s.writeopen then
      if pid in s.killed then s.(callers := Remove(s.callers, pid))
      else s.(sleepingReaders := s.sleepingReaders + {pid})
    else
      s.(ring := Drain(s.ring, n), callers := Remove(s.callers, pid), sleepingWriters := {})
  }

  ghost function Step(s: State, e: Event): State
    requires Enabled(s, e)
  {
    match e
    case Call(pid, caller) => s.(callers := s.callers[pid := caller])
    case Go(pid) =>
      (match s.callers[pid]
       case Writer(bs) => GoWriter(s, pid, bs)
       case Reader(n) => GoReader(s, pid, n))
    case Close(writable) =>
      if writable then s.(writeopen := false, sleepingReaders := {}) else s.(readopen := false, sleepingWriters := {})
    case Kill(pid) =>
      s.(killed := s.killed + {pid}, sleepingReaders := s.sleepingReaders - {pid},
         sleepingWriters := s.sleepingWriters - {pid})
  }

  /** Closing one end lowers its flag and wakes everybody who waits on the other. */
  lemma CloseDoes(s: State, writable: bool)
    requires Enabled(s, Close(writable))
    ensures writable ==> Step(s, Close(writable)) == s.(writeopen := false, sleepingReaders := {})
    ensures !writable ==> Step(s, Close(writable)) == s.(readopen := false, sleepingWriters := {})
  {
  }

  /** A killed process leaves its sleep and finds its flag set. */
  lemma KillDoes(s: State, pid: nat)
    requires Enabled(s, Kill(pid))
    ensures var s' := Step(s, Kill(pid));
      && s' == s.(killed := s.killed + {pid},
                  sleepingReaders := s'.sleepingReaders, sleepingWriters := s'.sleepingWriters)
      && (forall p :: p in s'.sleepingReaders <==> p in s.sleepingReaders && p != pid)
      && (forall p :: p in s'.sleepingWriters <==> p in s.sleepingWriters && p != pid)
  {
  }

  /** Behind the closing of the writing end nobody sleeps in a read. */
  lemma EndOfFile(r: Run)
    requires IsRun(r) && !r.s.writeopen
    ensures r.s.sleepingReaders == {}
  {
    RunKeepsInv(r);
  }

  /** A sleeping writer means a full pipe with its reading end open; a sleeping reader means that
      no writer sleeps and the writing end is open. */
  ghost predicate Inv(s: State)
  {
    && RingOk(s.ring)
    && (s.sleepingWriters != {} ==> Count(s.ring) == PIPESIZE && s.readopen)
    && (s.sleepingReaders != {} ==> s.sleepingWriters == {} && s.writeopen)
    && (forall p :: p in s.sleepingReaders ==> p in s.callers && s.callers[p].Reader?)
    && (forall p :: p in s.sleepingWriters ==> p in s.callers && s.callers[p].Writer? && s.callers[p].rest != [])
  }

  /** A sleeping reader means an empty pipe. */
  ghost predicate ReadersWaitForBytes(s: State)
  {
    s.sleepingReaders != {} ==> Count(s.ring) == 0
  }

  lemma GoWriterKeepsInv(s: State, pid: nat)
    requires Inv(s) && Enabled(s, Go(pid)) && s.callers[pid].Writer?
    ensures Inv(GoWriter(s, pid, s.callers[pid].rest))
  {
    FillEnters(s.ring, s.callers[pid].rest);
  }

  lemma GoReaderKeepsInv(s: State, pid: nat)
    requires Inv(s) && Enabled(s, Go(pid)) && s.callers[pid].Reader?
    ensures Inv(GoReader(s, pid, s.callers[pid].n))
  {
    TestsAgree(s.ring);
    DrainTakes(s.ring, s.callers[pid].n);
  }

  lemma StepKeepsInv(s: State, e: Event)
    requires Inv(s) && Enabled(s, e)
    ensures Inv(Step(s, e))
  {
    if e.Go? {
      match s.callers[e.pid]
      case Writer(_) => GoWriterKeepsInv(s, e.pid);
      case Reader(_) => GoReaderKeepsInv(s, e.pid);
    }
  }

  // ----- runs -----

  ghost predicate Created(s: State)
  {
    && |s.ring.data| == PIPESIZE && s.ring.nread == s.ring.nwrite == 0 && s.ring.put == s.ring.got == []
    && s.readopen && s.writeopen && s.callers == map[] && s.sleepingReaders == {} && s.sleepingWriters == {}
  }

  datatype Run = Start(s: State) | Then(prev: Run, e: Event, s: State)

  ghost predicate IsRun(r: Run)
  {
    match r
    case Start(s) => Created(s)
    case Then(prev, e, s) => IsRun(prev) && Enabled(prev.s, e) && s == Step(prev.s, e)
  }

  ghost predicate Unfold(r: Run) { true }

  /** `IsRun`, kept folded except where `Unfold` is mentioned. */
  ghost predicate Reached(r: Run)
  {
    forall q {:trigger Unfold(q)} :: q == r ==> IsRun(q)
  }

  lemma ReachedIsRun(r: Run)
    ensures Reached(r) <==> IsRun(r)
  {
    assert Unfold(r);
  }

  lemma {:induction false} RunKeepsInv(r: Run)
    requires IsRun(r)
    ensures Inv(r.s)
  {
    if r.Then? {
      RunKeepsInv(r.prev);
      StepKeepsInv(r.prev.s, r.e);
    }
  }

  /** On every run the bytes read are the first of the bytes written, in order, the pipe holds the
      rest, never more than PIPESIZE of them, and reader and writer never sleep together. */
  lemma PipeIsFifo(r: Run)
    requires IsRun(r)
    ensures var ring := r.s.ring;
      ring.got <= ring.put && 0 <= |ring.put| - |ring.got| <= 512
    ensures var ring := r.s.ring;
      ring.nread == |ring.got| % 0x1_0000_0000 && ring.nwrite == |ring.put| % 0x1_0000_0000
    ensures r.s.sleepingReaders == {} || r.s.sleepingWriters == {}
    ensures r.s.sleepingWriters != {} ==> |r.s.ring.put| - |r.s.ring.got| == 512 && r.s.readopen
  {
    RunKeepsInv(r);
  }

  // ----- readers that are not woken -----

  /** The next step is a writer that finds no reader left, or itself killed, with the pipe full and
      bytes left over, while somebody sleeps in a read: the branch that returns -1 wakes nobody. */
  ghost predicate Abandons(s: State, e: Event)
  {
    && e.Go? && e.pid in s.callers && s.callers[e.pid].Writer?
    && (!s.readopen || e.pid in s.killed)
    && |s.callers[e.pid].rest| > PIPESIZE - Count(s.ring)
    && s.sleepingReaders != {}
  }

  /** A step keeps "sleeping readers wait for bytes" if and only if it is no such return. */
  lemma StepKeepsReadersWhen(s: State, e: Event)
    requires Inv(s) && ReadersWaitForBytes(s) && Enabled(s, e)
    ensures ReadersWaitForBytes(Step(s, e)) <==> !Abandons(s, e)
  {
    if e.Go? {
      match s.callers[e.pid]
      case Writer(bs) => GoWriterKeepsReadersWhen(s, e.pid);
      case Reader(n) => GoReaderKeepsReaders(s, e.pid);
    }
  }

  lemma GoWriterKeepsReadersWhen(s: State, pid: nat)
    requires RingOk(s.ring) && ReadersWaitForBytes(s) && Enabled(s, Go(pid)) && s.callers[pid].Writer?
    ensures ReadersWaitForBytes(GoWriter(s, pid, s.callers[pid].rest)) <==> !Abandons(s, Go(pid))
  {
    FillEnters(s.ring, s.callers[pid].rest);
  }

  lemma GoReaderKeepsReaders(s: State, pid: nat)
    requires RingOk(s.ring) && ReadersWaitForBytes(s) && Enabled(s, Go(pid)) && s.callers[pid].Reader?
    ensures ReadersWaitForBytes(GoReader(s, pid, s.callers[pid].n))
  {
    TestsAgree(s.ring);
    DrainTakes(s.ring, s.callers[pid].n);
  }

  ghost predicate NeverAbandons(r: Run)
  {
    r.Then? ==> NeverAbandons(r.prev) && !Abandons(r.prev.s, r.e)
  }

  lemma {:induction false} ReadersSleepOnEmpty(r: Run)
    requires IsRun(r) && NeverAbandons(r)
    ensures r.s.sleepingReaders != {} ==> Count(r.s.ring) == 0 && r.s.writeopen
  {
    RunKeepsInv(r);
    if r.Then? {
      RunKeepsInv(r.prev);
      ReadersSleepOnEmpty(r.prev);
      StepKeepsReadersWhen(r.prev.s, r.e);
    }
  }

  lemma Extend(r: Run, e: Event) returns (r': Run)
    requires IsRun(r) && Enabled(r.s, e)
    ensures r' == Then(r, e, Step(r.s, e)) && IsRun(r')
  {
    r' := Then(r, e, Step(r.s, e));
  }

  /** It does happen: process 1 sleeps in a read, process 2 is killed while it writes more than the
      pipe holds, and the reader sleeps on beside a full pipe. */
  lemma ReaderLeftAsleep(s: State, bs: seq<byte>) returns (r: Run)
    requires Created(s) && 1 !in s.killed && |bs| > PIPESIZE
    ensures IsRun(r) && 1 in r.s.sleepingReaders && Count(r.s.ring) == PIPESIZE
  {
    r := Start(s);
    r := Extend(r, Call(1, Reader(1)));
    r := Extend(r, Go(1));
    r := Extend(r, Call(2, Writer(bs)));
    r := Extend(r, Kill(2));
    RunKeepsInv(r);
    FillEnters(r.s.ring, bs);
    r := Extend(r, Go(2));
  }
}
