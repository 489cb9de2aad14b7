/**
  `pipealloc`, `pipewrite`, `piperead` and `pipeclose` (src/pipe.c) with their loops over the ring,
  as runs of `PipeState`.  `WriteFrom` and `ReadFrom` are the stretches of a call between two sleeps.
 */
module Pipes {
  import opened Common
  import opened PipeState

  /** How a stretch of `pipewrite` ends: n was returned, -1 was returned, or it sleeps. */
  datatype WriteResult = Written | Refused | WriterAsleep(rest: seq<byte>)

  datatype ReadResult = Read(bytes: seq<byte>) | Interrupted | ReaderAsleep

  lemma {:induction false} FillSplit(r: Ring, bs: seq<byte>, i: nat)
    requires |r.data| == PIPESIZE && i < |bs| && !Full(r)
    ensures Fill(r, bs[i..]) == Fill(PutByte(r, bs[i]), bs[i + 1..])
    ensures Rest(r, bs[i..]) == Rest(PutByte(r, bs[i]), bs[i + 1..])
  {
    assert bs[i..][1..] == bs[i + 1..];
  }

  /** No byte is lost or made up between the ring and what is left over. */
  lemma FillConserves(r: Ring, bs: seq<byte>)
    requires RingOk(r)
    ensures Fill(r, bs).put + Rest(r, bs) == r.put + bs && r.put <= Fill(r, bs).put
    ensures Rest(r, bs) == [] ==> Fill(r, bs).put == r.put + bs
    ensures Rest(r, bs) != [] ==> Fill(r, bs).put < r.put + bs
    ensures Rest(r, bs) == [] <==> |bs| <= 512 - (|r.put| - |r.got|)
    ensures Rest(r, bs) != [] ==> |Fill(r, bs).put| - |r.got| == 512
    ensures Fill(r, bs).got == r.got
  {
    FillEnters(r, bs);
  }

  lemma Longer(r: Run, e: Event) returns (r': Run)
    requires Reached(r) && Enabled(r.s, e)
    ensures r' == Then(r, e, Step(r.s, e)) && Reached(r')
  {
    ReachedIsRun(r);
    r' := Extend(r, e);
    ReachedIsRun(r');
  }

  lemma InvHolds(r: Run)
    requires Reached(r)
    ensures RingOk(r.s.ring)
  {
    ReachedIsRun(r);
    RunKeepsInv(r);
  }

  class Pipe {
    const data: array<byte>
    var nread: nat
    var nwrite: nat
    var readopen: bool
    var writeopen: bool
    var sleepingReaders: set<nat>
    var sleepingWriters: set<nat>
    var killed: set<nat>
    ghost var callers: map<nat, Caller>
    ghost var put: seq<byte>
    ghost var got: seq<byte>
    ghost var run: Run

    ghost function Contents(): (r: Ring)
      reads this, data
    {
      Ring(data[..], nread, nwrite, put, got)
    }

    ghost predicate Valid()
      reads this, data
    {
      && data.Length == PIPESIZE && Reached(run)
      && run.s == State(Contents(), readopen, writeopen, callers, sleepingReaders, sleepingWriters, killed)
    }

    constructor ()
      ensures Valid() && fresh(data) && run == Start(run.s)
    {
      data := new byte[PIPESIZE];
      nread, nwrite, readopen, writeopen := 0, 0, true, true;
      sleepingReaders, sleepingWriters, killed, callers, put, got := {}, {}, {}, map[], [], [];
      new;
      run := Start(State(Contents(), readopen, writeopen, callers, sleepingReaders, sleepingWriters, killed));
      ReachedIsRun(run);
    }

    /** A process enters `pipewrite` or `piperead`. */
    ghost method Enter(pid: nat, caller: Caller)
      requires Valid() && Enabled(run.s, Call(pid, caller))
      modifies this`callers, this`run
      ensures Valid() && run == Then(old(run), Call(pid, caller), run.s)
    {
      var r := Longer(run, Call(pid, caller));
      callers := callers[pid := caller];
      run := r;
    }

    /** The copy loop of `pipewrite` up to the end of the bytes or a full ring. */
    method CopyIn(bs: seq<byte>) returns (i: nat)
      requires data.Length == PIPESIZE
      modifies this`nwrite, this`put, data
      ensures i <= |bs| && bs[i..] == Rest(old(Contents()), bs)
      ensures Contents() == Fill(old(Contents()), bs)
    {
      i := 0;
      assert bs[0..] == bs;
      while i < |bs| && nwrite != (nread + PIPESIZE) % UINT
        invariant i <= |bs| && data.Length == PIPESIZE
        invariant Fill(Contents(), bs[i..]) == Fill(old(Contents()), bs)
        invariant Rest(Contents(), bs[i..]) == Rest(old(Contents()), bs)
      {
        FillSplit(Contents(), bs, i);
        ghost var was := Contents();
        data[nwrite % PIPESIZE] := bs[i];
        nwrite := (nwrite + 1) % UINT;
        put := put + [bs[i]];
        assert Contents() == PutByte(was, bs[i]);
        i := i + 1;
      }
    }

    /** `pipewrite` from its start, or from a sleep, with the bytes bs still to be written. */
    method WriteFrom(pid: nat, bs: seq<byte>) returns (result: WriteResult)
      requires Valid() && Enabled(run.s, Go(pid)) && callers[pid] == Writer(bs)
      modifies this, data
      ensures Valid() && run == Then(old(run), Go(pid), run.s)
      ensures result.Written? ==> pid !in callers && put == old(put) + bs
      ensures result.WriterAsleep? ==> pid in sleepingWriters && pid in callers && callers[pid] == Writer(result.rest)
      ensures result.WriterAsleep? ==> put + result.rest == old(put) + bs
      ensures result.Written? <==> |bs| <= 512 - (|old(put)| - |old(got)|)
      ensures result.Refused? <==> !result.Written? && (!readopen || pid in killed)
      ensures !result.Written? ==> |put| - |got| == 512
      ensures result.Refused? ==> old(put) <= put < old(put) + bs && pid !in callers
      ensures sleepingReaders == (if result.Refused? then old(sleepingReaders) else {})
      ensures sleepingWriters == (if result.WriterAsleep? then old(sleepingWriters) + {pid} else old(sleepingWriters))
      ensures got == old(got) && readopen == old(readopen) && writeopen == old(writeopen) && killed == old(killed)
    {
      InvHolds(run);
      FillConserves(run.s.ring, bs);
      ghost var r := Longer(run, Go(pid));
      var i := CopyIn(bs);
      if i == |bs| {
        sleepingReaders := {};
        callers := Remove(callers, pid);
        result := Written;
      } else if !readopen || pid in killed {
        callers := Remove(callers, pid);
        result := Refused;
      } else {
        sleepingReaders := {};
        sleepingWriters := sleepingWriters + {pid};
        callers := callers[pid := Writer(bs[i..])];
        result := WriterAsleep(bs[i..]);
      }
      run := r;
    }

    /** The copy loop of `piperead`. */
    method CopyOut(n: nat) returns (bytes: seq<byte>)
      requires data.Length == PIPESIZE
      modifies this`nread, this`got
      ensures Contents() == Drain(old(Contents()), n) && got == old(got) + bytes
    {
      bytes := [];
      var i := 0;
      while i < n && nread != nwrite
        invariant i <= n && data.Length == PIPESIZE && got == old(got) + bytes
        invariant Drain(Contents(), n - i) == Drain(old(Contents()), n)
      {
        var b := data[nread % PIPESIZE];
        ghost var was := Contents();
        nread := (nread + 1) % UINT;
        got := got + [b];
        assert Contents() == TakeByte(was);
        bytes := bytes + [b];
        i := i + 1;
      }
    }

    /** `piperead` from its start, or from a sleep.  It hands out the oldest bytes. */
    method ReadFrom(pid: nat, n: nat) returns (result: ReadResult)
      requires Valid() && Enabled(run.s, Go(pid)) && callers[pid] == Reader(n)
      modifies this
      ensures Valid() && run == Then(old(run), Go(pid), run.s) && put == old(put)
      ensures result.Read? ==> got == old(got) + result.bytes && got <= put
      ensures result.Read? ==> |result.bytes| == Min(n, |put| - |old(got)|)
      ensures result.Read? && n > 0 && result.bytes == [] ==> !writeopen
      ensures old(got) == old(put) && !writeopen ==> result == Read([])
      ensures sleepingWriters == (if result.Read? then {} else old(sleepingWriters))
      ensures sleepingReaders == (if result.ReaderAsleep? then old(sleepingReaders) + {pid} else old(sleepingReaders))
      ensures readopen == old(readopen) && writeopen == old(writeopen) && killed == old(killed)
      ensures !result.ReaderAsleep? ==> pid !in callers
      ensures result.ReaderAsleep? <==> old(got) == old(put) && writeopen && pid !in killed
      ensures result.ReaderAsleep? ==> pid in sleepingReaders && got == old(got)
      ensures result.Interrupted? <==> old(got) == old(put) && writeopen && pid in killed
    {
      InvHolds(run);
      TestsAgree(run.s.ring);
      DrainTakes(run.s.ring, n);
      ghost var r := Longer(run, Go(pid));
      if nread == nwrite && writeopen {
        if pid in killed {
          callers := Remove(callers, pid);
          result := Interrupted;
        } else {
          sleepingReaders := sleepingReaders + {pid};
          result := ReaderAsleep;
        }
      } else {
        var bytes := CopyOut(n);
        sleepingWriters := {};
        callers := Remove(callers, pid);
        result := Read(bytes);
      }
      run := r;
    }

    /** `pipeclose`; the result tells that the pipe is freed. */
    method CloseEnd(writable: bool) returns (freed: bool)
      requires Valid() && Enabled(run.s, Close(writable))
      modifies this
      ensures Valid() && run == Then(old(run), Close(writable), run.s)
      ensures freed <==> !readopen && !writeopen
      ensures writeopen == (old(writeopen) && !writable) && readopen == (old(readopen) && writable)
      ensures sleepingReaders == (if writable then {} else old(sleepingReaders))
      ensures sleepingWriters == (if writable then old(sleepingWriters) else {})
      ensures put == old(put) && got == old(got) && callers == old(callers)
    {
      ghost var r := Longer(run, Close(writable));
      if writable {
        writeopen := false;
        sleepingReaders := {};
      } else {
        readopen := false;
        sleepingWriters := {};
      }
      freed := !readopen && !writeopen;
      run := r;
    }
  }
}
