/**
  Files on the image that mkfs builds (src/mkfs.c:183-297, src/fs.h): twelve direct block addresses
  and one indirect block of 128 little-endian addresses.

  Blocks are bytes.  `owners` records for every allocated block what it was allocated for, so that no
  two files share a block.
 */
module MkfsFiles {
  import opened Common

  const BSIZE: nat := 512
  const NDIRECT: nat := 12
  const NINDIRECT: nat := 128
  const MAXFILE: nat := NDIRECT + NINDIRECT
  const NMETA: nat := 59

  type Block = seq<byte>

  datatype Owner = Data(inum: nat, fbn: nat) | Index(inum: nat)

  // ----- indirect blocks -----

  /** The i-th 32-bit word of a block, as `xint` stores it: least significant byte first. */
  function WordAt(b: Block, i: nat): (w: nat)
    requires |b| == BSIZE && i < NINDIRECT
    ensures w < UINT
  {
    b[4 * i] as nat + 0x100 * b[4 * i + 1] as nat + 0x1_0000 * b[4 * i + 2] as nat + 0x100_0000 * b[4 * i + 3] as nat
  }

  function SetWord(b: Block, i: nat, w: nat): (b': Block)
    requires |b| == BSIZE && i < NINDIRECT && w < UINT
    ensures |b'| == BSIZE
  {
    b[4 * i := (w % 0x100) as byte][4 * i + 1 := (w / 0x100 % 0x100) as byte]
     [4 * i + 2 := (w / 0x1_0000 % 0x100) as byte][4 * i + 3 := (w / 0x100_0000) as byte]
  }

  lemma Digits(w: nat)
    ensures var a, b, c, d := w % 0x100, w / 0x100 % 0x100, w / 0x1_0000 % 0x100, w / 0x100_0000;
      w == a + 0x100 * b + 0x1_0000 * c + 0x100_0000 * d
  {
    var a, b := w / 0x100, w / 0x1_0000;
    assert a / 0x100 == b && b / 0x100 == w / 0x100_0000;
  }

  lemma SetWordSets(b: Block, i: nat, w: nat, j: nat)
    requires |b| == BSIZE && i < NINDIRECT && w < UINT && j < NINDIRECT
    ensures WordAt(SetWord(b, i, w), j) == if j == i then w else WordAt(b, j)
  {
    Digits(w);
  }

  // ----- the blocks of a file -----

  ghost predicate DiskOk(disk: seq<Block>)
  {
    NMETA <= |disk| < UINT && forall b :: 0 <= b < |disk| ==> |disk[b]| == BSIZE
  }

  /** The blocks from NMETA up to the first free one are exactly those allocated. */
  ghost predicate OwnersOk(owners: map<nat, Owner>, free: nat)
  {
    NMETA <= free && forall b: nat {:trigger b in owners} :: b in owners <==> NMETA <= b < free
  }

  /** The blocks from `freeblock` on stay zero. */
  ghost predicate FreeIsZero(disk: seq<Block>, free: nat)
    requires DiskOk(disk)
  {
    forall b, k :: free <= b < |disk| && 0 <= k < BSIZE ==> disk[b][k] == 0
  }

  ghost predicate Owned(owners: map<nat, Owner>, b: nat, o: Owner)
  {
    b in owners && owners[b] == o
  }

  ghost predicate TableOk(block: Block, owners: map<nat, Owner>, inum: nat, n: nat)
    requires |block| == BSIZE
  {
    forall j: nat {:trigger WordAt(block, j)} :: j < NINDIRECT ==>
      if j < n then Owned(owners, WordAt(block, j), Data(inum, NDIRECT + j)) else WordAt(block, j) == 0
  }

  ghost predicate DirectOk(owners: map<nat, Owner>, inum: nat, addrs: seq<nat>, nb: nat)
    requires |addrs| == NDIRECT + 1
  {
    forall f: nat {:trigger addrs[f]} :: f < NDIRECT ==>
      if f < nb then Owned(owners, addrs[f], Data(inum, f)) else addrs[f] == 0
  }

  /** The addresses of file `inum` lead to nb blocks allocated for it, in order, and no further. */
  ghost predicate FileOk(disk: seq<Block>, owners: map<nat, Owner>, inum: nat, addrs: seq<nat>, nb: nat)
    requires DiskOk(disk)
  {
    && |addrs| == NDIRECT + 1 && nb <= MAXFILE
    && DirectOk(owners, inum, addrs, nb)
    && if nb <= NDIRECT then addrs[NDIRECT] == 0
       else && Owned(owners, addrs[NDIRECT], Index(inum)) && addrs[NDIRECT] < |disk|
            && TableOk(disk[addrs[NDIRECT]], owners, inum, nb - NDIRECT)
  }

  /** The address of block f of a file. */
  function BlockOf(disk: seq<Block>, addrs: seq<nat>, f: nat): (b: nat)
    requires |addrs| == NDIRECT + 1 && addrs[NDIRECT] < |disk| && f < MAXFILE && |disk[addrs[NDIRECT]]| == BSIZE
  {
    if f < NDIRECT then addrs[f] else WordAt(disk[addrs[NDIRECT]], f - NDIRECT)
  }

  function Blocks(n: nat): (nb: nat) { (n + BSIZE - 1) / BSIZE }

  ghost predicate HasByte(disk: seq<Block>, addrs: seq<nat>, k: nat, v: byte)
    requires DiskOk(disk) && |addrs| == NDIRECT + 1
  {
    && k / BSIZE < MAXFILE && addrs[NDIRECT] < |disk|
    && BlockOf(disk, addrs, k / BSIZE) < |disk|
    && disk[BlockOf(disk, addrs, k / BSIZE)][k % BSIZE] == v
  }

  /** Reading the file gives these bytes. */
  ghost predicate Holds(disk: seq<Block>, addrs: seq<nat>, bytes: seq<byte>)
    requires DiskOk(disk) && |addrs| == NDIRECT + 1
  {
    forall k :: 0 <= k < |bytes| ==> HasByte(disk, addrs, k, bytes[k])
  }

  /** Two readings of one file agree. */
  lemma HoldsOne(disk: seq<Block>, addrs: seq<nat>, s: seq<byte>, t: seq<byte>)
    requires DiskOk(disk) && |addrs| == NDIRECT + 1 && Holds(disk, addrs, s) && Holds(disk, addrs, t) && |s| == |t|
    ensures s == t
  {
    forall k | 0 <= k < |s|
      ensures s[k] == t[k]
    {
      assert HasByte(disk, addrs, k, s[k]) && HasByte(disk, addrs, k, t[k]);
    }
  }

  lemma BlockOwned(disk: seq<Block>, owners: map<nat, Owner>, inum: nat, addrs: seq<nat>, nb: nat, f: nat)
    requires DiskOk(disk) && FileOk(disk, owners, inum, addrs, nb) && f < nb
    ensures addrs[NDIRECT] < |disk| && Owned(owners, BlockOf(disk, addrs, f), Data(inum, f))
  {
    if f >= NDIRECT {
      assert WordAt(disk[addrs[NDIRECT]], f - NDIRECT) == BlockOf(disk, addrs, f);
    }
  }

  /** The blocks a file refers to: number f of its data, or, for f == MAXFILE, its table. */
  ghost predicate Refers(disk: seq<Block>, addrs: seq<nat>, nb: nat, f: nat, b: nat)
  {
    && |addrs| == NDIRECT + 1 && addrs[NDIRECT] < |disk| && |disk[addrs[NDIRECT]]| == BSIZE
    && if f == MAXFILE then nb > NDIRECT && b == addrs[NDIRECT] else f < nb <= MAXFILE && b == BlockOf(disk, addrs, f)
  }

  /** No two files share a block, data or table, nor does a file use one twice. */
  lemma NoSharing(disk: seq<Block>, owners: map<nat, Owner>, i: nat, ai: seq<nat>, ni: nat, f: nat,
                  j: nat, aj: seq<nat>, nj: nat, g: nat, b: nat)
    requires DiskOk(disk) && FileOk(disk, owners, i, ai, ni) && FileOk(disk, owners, j, aj, nj)
    requires Refers(disk, ai, ni, f, b) && Refers(disk, aj, nj, g, b)
    ensures i == j && f == g
  {
    if f < ni {
      BlockOwned(disk, owners, i, ai, ni, f);
    }
    if g < nj {
      BlockOwned(disk, owners, j, aj, nj, g);
    }
  }

  // ----- a file is not touched by work on others -----

  ghost predicate Grows(owners: map<nat, Owner>, owners': map<nat, Owner>)
  {
    forall b: nat :: b in owners ==> b in owners' && owners'[b] == owners[b]
  }

  /** Blocks of file inum are the same on both disks. */
  ghost predicate SameBlocks(disk: seq<Block>, disk': seq<Block>, owners: map<nat, Owner>, inum: nat)
  {
    |disk'| == |disk| && forall b: nat :: b in owners && b < |disk| && owners[b].inum == inum ==> disk'[b] == disk[b]
  }

  lemma FileOkFrame(disk: seq<Block>, disk': seq<Block>, owners: map<nat, Owner>, owners': map<nat, Owner>,
                    inum: nat, addrs: seq<nat>, nb: nat)
    requires DiskOk(disk) && DiskOk(disk') && FileOk(disk, owners, inum, addrs, nb)
    requires Grows(owners, owners') && SameBlocks(disk, disk', owners, inum)
    ensures FileOk(disk', owners', inum, addrs, nb)
  {
  }

  /** A byte that lies in the blocks of the file survives any change elsewhere. */
  lemma HoldsFrame(disk: seq<Block>, disk': seq<Block>, owners: map<nat, Owner>,
                   inum: nat, addrs: seq<nat>, nb: nat, s: seq<byte>)
    requires DiskOk(disk) && DiskOk(disk') && FileOk(disk, owners, inum, addrs, nb) && Blocks(|s|) <= nb
    requires SameBlocks(disk, disk', owners, inum) && Holds(disk, addrs, s)
    ensures Holds(disk', addrs, s)
  {
    forall k | 0 <= k < |s|
      ensures HasByte(disk', addrs, k, s[k])
    {
      assert HasByte(disk, addrs, k, s[k]);
      BlockOwned(disk, owners, inum, addrs, nb, k / BSIZE);
    }
  }

  // ----- allocating the next block of a file -----

  lemma AllocDirect(disk: seq<Block>, owners: map<nat, Owner>, inum: nat, addrs: seq<nat>, nb: nat, x: nat)
    requires DiskOk(disk) && FileOk(disk, owners, inum, addrs, nb) && nb < NDIRECT && x !in owners
    ensures addrs[nb] == 0
    ensures FileOk(disk, owners[x := Data(inum, nb)], inum, addrs[nb := x], nb + 1)
  {
  }

  /** The first indirect address takes two blocks: the table and the data block. */
  lemma AllocTable(disk: seq<Block>, owners: map<nat, Owner>, inum: nat, addrs: seq<nat>, x: nat, y: nat)
    requires DiskOk(disk) && FileOk(disk, owners, inum, addrs, NDIRECT)
    requires x !in owners && y !in owners && x < |disk|
    requires x != y && y < UINT && forall k :: 0 <= k < BSIZE ==> disk[x][k] == 0
    ensures addrs[NDIRECT] == 0 && WordAt(disk[x], 0) == 0
    ensures FileOk(disk[x := SetWord(disk[x], 0, y)], owners[x := Index(inum)][y := Data(inum, NDIRECT)], inum,
                   addrs[NDIRECT := x], NDIRECT + 1)
  {
    var owners' := owners[x := Index(inum)][y := Data(inum, NDIRECT)];
    var t := SetWord(disk[x], 0, y);
    forall j: nat | j < NINDIRECT
      ensures if j < 1 then Owned(owners', WordAt(t, j), Data(inum, NDIRECT + j)) else WordAt(t, j) == 0
    {
      SetWordSets(disk[x], 0, y, j);
    }
    assert TableOk(t, owners', inum, 1);
    assert DirectOk(owners', inum, addrs[NDIRECT := x], NDIRECT + 1);
  }

  lemma TableGrows(t: Block, owners: map<nat, Owner>, inum: nat, n: nat, x: nat)
    requires |t| == BSIZE && TableOk(t, owners, inum, n) && n < NINDIRECT && x !in owners && x < UINT
    ensures WordAt(t, n) == 0
    ensures TableOk(SetWord(t, n, x), owners[x := Data(inum, NDIRECT + n)], inum, n + 1)
  {
    forall j: nat | j < NINDIRECT
      ensures WordAt(SetWord(t, n, x), j) == if j == n then x else WordAt(t, j)
    {
      SetWordSets(t, n, x, j);
    }
  }

  lemma AllocIndirect(disk: seq<Block>, owners: map<nat, Owner>, inum: nat, addrs: seq<nat>, nb: nat, x: nat)
    requires DiskOk(disk) && FileOk(disk, owners, inum, addrs, nb) && NDIRECT < nb < MAXFILE && x !in owners && x < UINT
    ensures WordAt(disk[addrs[NDIRECT]], nb - NDIRECT) == 0
    ensures var t := addrs[NDIRECT];
      FileOk(disk[t := SetWord(disk[t], nb - NDIRECT, x)], owners[x := Data(inum, nb)], inum, addrs, nb + 1)
  {
    TableGrows(disk[addrs[NDIRECT]], owners, inum, nb - NDIRECT, x);
  }

  /** The bytes of the file stay where they were while its next block is allocated. */
  lemma AllocKeepsBytes(disk: seq<Block>, owners: map<nat, Owner>, addrs: seq<nat>,
                        disk': seq<Block>, owners': map<nat, Owner>, addrs': seq<nat>,
                        inum: nat, nb: nat, s: seq<byte>)
    requires DiskOk(disk) && DiskOk(disk') && FileOk(disk, owners, inum, addrs, nb) && Blocks(|s|) <= nb < MAXFILE
    requires FileOk(disk', owners', inum, addrs', nb + 1) && Holds(disk, addrs, s)
    requires forall f: nat :: f < nb && addrs[NDIRECT] < |disk| && addrs'[NDIRECT] < |disk'| ==>
      BlockOf(disk', addrs', f) == BlockOf(disk, addrs, f)
    requires forall b: nat :: b in owners && b < |disk| && owners[b].Data? ==> b < |disk'| && disk'[b] == disk[b]
    ensures Holds(disk', addrs', s)
  {
    forall k | 0 <= k < |s|
      ensures HasByte(disk', addrs', k, s[k])
    {
      assert HasByte(disk, addrs, k, s[k]);
      BlockOwned(disk, owners, inum, addrs, nb, k / BSIZE);
      BlockOwned(disk', owners', inum, addrs', nb + 1, k / BSIZE);
    }
  }

  // ----- writing into the last block -----

  /** Block b with the bytes c copied in at offset o. */
  function Splice(b: Block, o: nat, c: seq<byte>): (b': Block)
    requires |b| == BSIZE && o + |c| <= BSIZE
    ensures |b'| == BSIZE
  {
    b[..o] + c + b[o + |c|..]
  }

  lemma WriteKeepsFile(disk: seq<Block>, owners: map<nat, Owner>, inum: nat, addrs: seq<nat>, nb: nat, f: nat, b: Block)
    requires DiskOk(disk) && FileOk(disk, owners, inum, addrs, nb) && f < nb && |b| == BSIZE
    requires addrs[NDIRECT] < |disk| && BlockOf(disk, addrs, f) < |disk|
    ensures FileOk(disk[BlockOf(disk, addrs, f) := b], owners, inum, addrs, nb)
    ensures forall g: nat :: g < nb ==> BlockOf(disk[BlockOf(disk, addrs, f) := b], addrs, g) == BlockOf(disk, addrs, g)
  {
    BlockOwned(disk, owners, inum, addrs, nb, f);
  }

  /** Copying bytes in behind the end of the file appends them. */
  lemma WriteAppends(disk: seq<Block>, owners: map<nat, Owner>, inum: nat, addrs: seq<nat>, nb: nat, s: seq<byte>,
                     c: seq<byte>)
    requires DiskOk(disk) && FileOk(disk, owners, inum, addrs, nb) && Holds(disk, addrs, s)
    requires nb == |s| / BSIZE + 1 && |s| % BSIZE + |c| <= BSIZE
    requires addrs[NDIRECT] < |disk| && BlockOf(disk, addrs, |s| / BSIZE) < |disk|
    ensures var x := BlockOf(disk, addrs, |s| / BSIZE);
      var disk' := disk[x := Splice(disk[x], |s| % BSIZE, c)];
      FileOk(disk', owners, inum, addrs, nb) && Holds(disk', addrs, s + c)
  {
    var x := BlockOf(disk, addrs, |s| / BSIZE);
    var disk' := disk[x := Splice(disk[x], |s| % BSIZE, c)];
    WriteKeepsFile(disk, owners, inum, addrs, nb, |s| / BSIZE, Splice(disk[x], |s| % BSIZE, c));
    BlockOwned(disk, owners, inum, addrs, nb, |s| / BSIZE);
    forall k | 0 <= k < |s + c|
      ensures HasByte(disk', addrs, k, (s + c)[k])
    {
      BlockOwned(disk, owners, inum, addrs, nb, k / BSIZE);
      if k < |s| {
        assert HasByte(disk, addrs, k, s[k]);
      }
    }
  }

  // ----- how many blocks an append takes -----

  /** A file of nb blocks takes this many, its table included. */
  function Footprint(nb: nat): (n: nat) { if nb > NDIRECT then nb + 1 else nb }
}
