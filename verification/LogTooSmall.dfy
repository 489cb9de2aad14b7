/**
  `begin_op` admits operations against LOGSIZE, but `log_write` panics at log.size - 1 entries
  (src/log.c:101, src/log.c:170).  mkfs makes the two equal (src/mkfs.c:25), so operations that
  all keep to their allowance can still meet the panic; exactly when log.size > LOGSIZE they cannot.
 */
module LogTooSmall {
  import opened LogDisk
  import opened LogProtocol
  import opened LogSafety

  /** The k-th distinct home block behind the log area. */
  function Target(g: Geometry, k: nat): (b: nat) { g.start + g.size + k }

  function Left(k: nat, p: nat): (n: nat)
    ensures n <= MAXOPBLOCKS
  {
    if k <= MAXOPBLOCKS * p then MAXOPBLOCKS
    else if k >= MAXOPBLOCKS * (p + 1) then 0
    else MAXOPBLOCKS * (p + 1) - k
  }

  function Targets(g: Geometry, k: nat): (s: seq<nat>)
    ensures |s| == k && forall i :: 0 <= i < k ==> s[i] == Target(g, i)
  {
    if k == 0 then [] else Targets(g, k - 1) + [Target(g, k - 1)]
  }

  function Written(g: Geometry, k: nat, z: Block): (m: map<nat, Block>)
  {
    if k == 0 then map[] else Written(g, k - 1, z)[Target(g, k - 1) := z]
  }

  function Allowances(n: nat): (m: map<nat, int>)
    ensures forall p: nat :: p in m <==> p < n
  {
    if n == 0 then map[] else Allowances(n - 1)[n - 1 := MAXOPBLOCKS]
  }

  /** Three operations open and k distinct blocks logged, ten by each operation in turn. */
  function Filled(g: Geometry, d: Disk, k: nat, z: Block): (s: State)
  {
    State(d,
          Written(g, k, z),
          Targets(g, k),
          3, false, Quiet,
          map[0 := Left(k, 0), 1 := Left(k, 1), 2 := Left(k, 2)],
          {})
  }

  function Opened(d: Disk, n: nat): (s: State)
  {
    State(d, map[], [], n, false, Quiet, Allowances(n), {})
  }

  /** A freshly booted file system with room for LOGSIZE home blocks behind the log. */
  ghost predicate Fresh(g: Geometry, d: Disk)
  {
    Formatted(g, d) && Head(g, d) == [] && g.start + g.size + LOGSIZE <= |d|
  }

  lemma OpenStep(g: Geometry, d: Disk, n: nat)
    requires Fresh(g, d) && n < 3
    ensures Runnable(g, Opened(d, n)) && Enabled(g, Opened(d, n), Begin(n))
    ensures Step(g, Opened(d, n), Begin(n)) == Next(Opened(d, n + 1))
  {
  }

  lemma FillStep(g: Geometry, d: Disk, k: nat, z: Block)
    requires Fresh(g, d) && k < LOGSIZE && k < g.size - 1
    ensures var e := Write(k / MAXOPBLOCKS, Target(g, k), z);
      Runnable(g, Filled(g, d, k, z)) && Enabled(g, Filled(g, d, k, z), e) && Modest(Filled(g, d, k, z), e)
      && Step(g, Filled(g, d, k, z), e) == Next(Filled(g, d, k + 1, z))
  {
    var s, s', p := Filled(g, d, k, z), Filled(g, d, k + 1, z), k / MAXOPBLOCKS;
    assert s.budget[p := s.budget[p] - 1] == s'.budget;
  }

  lemma {:induction false} FillRun(g: Geometry, d: Disk, k: nat, z: Block) returns (r: Run)
    requires Fresh(g, d) && k <= LOGSIZE && k <= g.size - 1
    ensures IsRun(g, r) && AllModest(r) && First(r) == Opened(d, 0) && r.s == Filled(g, d, k, z)
  {
    if k == 0 {
      r := Start(Opened(d, 0));
      for n := 0 to 3
        invariant IsRun(g, r) && AllModest(r) && First(r) == Opened(d, 0) && r.s == Opened(d, n)
      {
        OpenStep(g, d, n);
        r := Then(r, Begin(n), Opened(d, n + 1));
      }
      assert Allowances(1) == map[0 := MAXOPBLOCKS];
      assert Allowances(3) == Filled(g, d, 0, z).budget;
    } else {
      r := FillRun(g, d, k - 1, z);
      FillStep(g, d, k - 1, z);
      r := Then(r, Write((k - 1) / MAXOPBLOCKS, Target(g, k - 1), z), Filled(g, d, k, z));
    }
  }

  /** With at most LOGSIZE log blocks, modest operations reach the panic of `log_write`. */
  lemma SmallLogPanics(g: Geometry, d: Disk) returns (r: Run, e: Event)
    requires Fresh(g, d) && g.size <= LOGSIZE
    ensures IsRun(g, r) && AllModest(r) && First(r) == Opened(d, 0)
    ensures Runnable(g, r.s) && Enabled(g, r.s, e) && Modest(r.s, e)
    ensures Step(g, r.s, e) == Panic
  {
    var k, z := g.size - 1, d[0];
    r := FillRun(g, d, k, z);
    e := Write(k / MAXOPBLOCKS, Target(g, k), z);
  }

  lemma OpenedInv(g: Geometry, d: Disk)
    requires Fresh(g, d)
    ensures Inv(g, Opened(d, 0)) && Reserved(Opened(d, 0))
  {
    assert Opened(d, 0).budget == map[];
  }

  ghost predicate CanPanic(g: Geometry, d: Disk)
  {
    exists r: Run, e: Event ::
      && IsRun(g, r) && AllModest(r) && First(r) == Opened(d, 0)
      && Runnable(g, r.s) && Enabled(g, r.s, e) && Modest(r.s, e) && Step(g, r.s, e) == Panic
  }

  /** The exact condition: modest operations can panic if and only if log.size <= LOGSIZE. */
  lemma PanicsExactlyWhenSmall(g: Geometry, d: Disk)
    requires Fresh(g, d)
    ensures CanPanic(g, d) <==> g.size <= LOGSIZE
  {
    if g.size <= LOGSIZE {
      var r, e := SmallLogPanics(g, d);
    } else {
      forall r: Run, e: Event
        | IsRun(g, r) && AllModest(r) && First(r) == Opened(d, 0)
          && Runnable(g, r.s) && Enabled(g, r.s, e) && Modest(r.s, e)
        ensures Step(g, r.s, e) != Panic
      {
        OpenedInv(g, d);
        RunKeepsReservation(g, r);
        ModestNeverPanics(g, r.s, e);
      }
    }
  }
}
