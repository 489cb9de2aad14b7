/**
  The on-disk write-ahead log (src/log.c).

  A disk is a sequence of blocks of 32-bit words.  The log area occupies blocks
  [start, start + size): its first block is the header (word 0 counts the valid entries,
  word 1 + i is the home block number of entry i) and block start + 1 + i holds entry i.
  Every other block is a "home" block.  A `bwrite` changes one block atomically and a crash
  may come between any two of them.
 */
module LogDisk {

  const MAXOPBLOCKS: nat := 10
  const LOGSIZE: nat := 3 * MAXOPBLOCKS
  const BWORDS: nat := 128

  type Block = b: seq<nat> | |b| == BWORDS witness seq(BWORDS, _ => 0)
  type Disk = seq<Block>
  type Image = map<nat, Block>

  datatype Geometry = Geometry(start: nat, size: nat)

  ghost predicate Distinct(s: seq<nat>)
  {
    forall i, j :: 0 <= i < j < |s| ==> s[i] != s[j]
  }

  predicate Home(g: Geometry, blocks: nat, b: nat)
  {
    b < blocks && !(g.start <= b < g.start + g.size)
  }

  /** A transaction that fits the log: distinct home blocks, one log block left for the header. */
  ghost predicate FitsLog(g: Geometry, blocks: nat, lh: seq<nat>)
  {
    && |lh| <= LOGSIZE
    && |lh| < g.size
    && Distinct(lh)
    && forall i :: 0 <= i < |lh| ==> Home(g, blocks, lh[i])
  }

  predicate Placed(g: Geometry, d: Disk)
  {
    1 <= g.size && g.start + g.size <= |d|
  }

  /** The entries that `read_head` takes from the header block. */
  function Head(g: Geometry, d: Disk): (lh: seq<nat>)
    requires Placed(g, d)
  {
    var b := d[g.start];
    if b[0] <= LOGSIZE then b[1..b[0] + 1] else []
  }

  ghost predicate Formatted(g: Geometry, d: Disk)
  {
    Placed(g, d) && d[g.start][0] <= LOGSIZE && FitsLog(g, |d|, Head(g, d))
  }

  /** The header block after `write_head`: only the count and the first |lh| entries change. */
  function PutHead(b: Block, lh: seq<nat>): (r: Block)
    requires |lh| <= LOGSIZE
  {
    [|lh|] + lh + b[|lh| + 1..]
  }

  lemma HeadOfPutHead(g: Geometry, d: Disk, lh: seq<nat>)
    requires Placed(g, d) && |lh| <= LOGSIZE
    ensures Head(g, d[g.start := PutHead(d[g.start], lh)]) == lh
  {
    var b := PutHead(d[g.start], lh);
    assert b[0] == |lh|;
    assert b[1..|lh| + 1] == lh;
  }

  function IndexOf(s: seq<nat>, b: nat): (i: nat)
    requires b in s
    ensures i < |s| && s[i] == b
  {
    if s[0] == b then 0 else 1 + IndexOf(s[1..], b)
  }

  /** What recovery leaves in home block b when it starts from disk d. */
  function Surviving(g: Geometry, d: Disk, b: nat): (r: Block)
    requires Placed(g, d) && |Head(g, d)| < g.size && Home(g, |d|, b)
  {
    var lh := Head(g, d);
    if b in lh then d[g.start + 1 + IndexOf(lh, b)] else d[b]
  }

  lemma SurvivingEntry(g: Geometry, d: Disk, i: nat)
    requires Formatted(g, d) && i < |Head(g, d)|
    ensures Surviving(g, d, Head(g, d)[i]) == d[g.start + 1 + i]
  {
    assert IndexOf(Head(g, d), Head(g, d)[i]) == i;
  }

  /** The home blocks as recovery would restore them. */
  function Durable(g: Geometry, d: Disk): (m: Image)
    requires Placed(g, d) && |Head(g, d)| < g.size
  {
    map b: nat | 0 <= b < |d| && Home(g, |d|, b) :: Surviving(g, d, b)
  }

  // The four kinds of block write made by log.c.

  function LogBlock(g: Geometry, d: Disk, tail: nat, data: Block): (r: Disk)
    requires Placed(g, d) && 1 + tail < g.size
  {
    d[g.start + 1 + tail := data]
  }

  function InstallBlock(g: Geometry, d: Disk, lh: seq<nat>, tail: nat): (r: Disk)
    requires Placed(g, d) && tail < |lh| < g.size && lh[tail] < |d|
  {
    d[lh[tail] := d[g.start + 1 + tail]]
  }

  function HeadBlock(g: Geometry, d: Disk, lh: seq<nat>): (r: Disk)
    requires Placed(g, d) && |lh| <= LOGSIZE
  {
    d[g.start := PutHead(d[g.start], lh)]
  }

  /** Filling log blocks behind an empty header changes nothing that survives. */
  lemma LogBlockInvisible(g: Geometry, d: Disk, tail: nat, data: Block)
    requires Formatted(g, d) && Head(g, d) == [] && 1 + tail < g.size
    ensures var d' := LogBlock(g, d, tail, data);
      Formatted(g, d') && Head(g, d') == [] && Durable(g, d') == Durable(g, d)
  {
  }

  /** Copying an entry of the on-disk header home changes nothing that survives. */
  lemma InstallInvisible(g: Geometry, d: Disk, tail: nat)
    requires Formatted(g, d) && tail < |Head(g, d)|
    ensures var d' := InstallBlock(g, d, Head(g, d), tail);
      Formatted(g, d') && Head(g, d') == Head(g, d) && Durable(g, d') == Durable(g, d)
  {
    var lh := Head(g, d);
    var d' := InstallBlock(g, d, lh, tail);
    assert d'[g.start] == d[g.start];
    forall b: nat | b < |d| && Home(g, |d|, b)
      ensures Surviving(g, d', b) == Surviving(g, d, b)
    {
      InstallInvisibleAt(g, d, tail, b);
    }
  }

  lemma InstallInvisibleAt(g: Geometry, d: Disk, tail: nat, b: nat)
    requires Formatted(g, d) && tail < |Head(g, d)| && Home(g, |d|, b)
    ensures var d' := InstallBlock(g, d, Head(g, d), tail);
      Head(g, d') == Head(g, d) && Surviving(g, d', b) == Surviving(g, d, b)
  {
    var d' := InstallBlock(g, d, Head(g, d), tail);
    assert d'[g.start] == d[g.start];
    SurvivingEntry(g, d, tail);
  }

  ghost predicate Installed(g: Geometry, d: Disk, lh: seq<nat>, tail: nat)
    requires Placed(g, d) && tail <= |lh| < g.size
  {
    forall i :: 0 <= i < tail ==> lh[i] < |d| && d[lh[i]] == d[g.start + 1 + i]
  }

  /** Clearing the header changes nothing that survives once every entry is installed. */
  lemma ClearInvisible(g: Geometry, d: Disk)
    requires Formatted(g, d) && Installed(g, d, Head(g, d), |Head(g, d)|)
    ensures var d' := HeadBlock(g, d, []);
      Formatted(g, d') && Head(g, d') == [] && Durable(g, d') == Durable(g, d)
  {
    var d' := HeadBlock(g, d, []);
    HeadOfPutHead(g, d, []);
    assert PutHead(d[g.start], [])[0] == 0;
    forall b: nat | b < |d| && Home(g, |d|, b)
      ensures Surviving(g, d', b) == Surviving(g, d, b)
    {
    }
  }

  /** The cached view: the contents `bread` returns for home blocks. */
  function Overlay(g: Geometry, d: Disk, cache: map<nat, Block>): (m: Image)
    requires Placed(g, d) && |Head(g, d)| < g.size
  {
    map b: nat | 0 <= b < |d| && Home(g, |d|, b) ::
      if b in cache then cache[b] else Surviving(g, d, b)
  }

  ghost predicate LogHolds(g: Geometry, d: Disk, lh: seq<nat>, cache: map<nat, Block>, tail: nat)
    requires Placed(g, d) && tail <= |lh| < g.size
  {
    forall i :: 0 <= i < tail ==> lh[i] in cache && d[g.start + 1 + i] == cache[lh[i]]
  }

  lemma HeadCommitsAt(g: Geometry, d: Disk, lh: seq<nat>, cache: map<nat, Block>, b: nat)
    requires Formatted(g, d) && Head(g, d) == [] && FitsLog(g, |d|, lh)
    requires b in cache ==> b in lh
    requires LogHolds(g, d, lh, cache, |lh|)
    requires Home(g, |d|, b)
    ensures var d' := HeadBlock(g, d, lh);
      Head(g, d') == lh && Surviving(g, d', b) == if b in cache then cache[b] else Surviving(g, d, b)
  {
    HeadOfPutHead(g, d, lh);
  }

  lemma HeadWritten(g: Geometry, d: Disk, lh: seq<nat>)
    requires Placed(g, d) && FitsLog(g, |d|, lh)
    ensures Formatted(g, HeadBlock(g, d, lh)) && Head(g, HeadBlock(g, d, lh)) == lh
  {
    HeadOfPutHead(g, d, lh);
    assert PutHead(d[g.start], lh)[0] == |lh|;
  }

  /** Writing the header is the commit point: everything cached becomes what survives. */
  lemma HeadCommits(g: Geometry, d: Disk, lh: seq<nat>, cache: map<nat, Block>)
    requires Formatted(g, d) && Head(g, d) == [] && FitsLog(g, |d|, lh)
    requires forall b :: b in cache ==> b in lh
    requires LogHolds(g, d, lh, cache, |lh|)
    ensures var d' := HeadBlock(g, d, lh);
      Formatted(g, d') && Head(g, d') == lh && Durable(g, d') == Overlay(g, d, cache)
  {
    var d' := HeadBlock(g, d, lh);
    HeadWritten(g, d, lh);
    forall b: nat | b < |d| && Home(g, |d|, b)
      ensures Surviving(g, d', b) == if b in cache then cache[b] else Surviving(g, d, b)
    {
      HeadCommitsAt(g, d, lh, cache, b);
    }
  }
}
