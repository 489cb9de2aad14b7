/**
  Inodes in their sectors (src/mkfs.c:183-208, src/fs.h): eight inodes of sixteen 32-bit words share a
  sector, and `winode` reads the sector, changes one of them and writes the sector back.
 */
module MkfsInodes {
  import opened Common
  import opened MkfsFiles

  const INODESTART: nat := 32
  const BMAPSTART: nat := 58
  const IPB: nat := 8
  const NINODES: nat := 208          // what the sectors from INODESTART up to BMAPSTART hold
  const WORDS: nat := 16
  const ONELINK: nat := 0x1_0000     // the word of minor and nlink that `ialloc` writes

  /** A `dinode`: type and major in one word, minor and nlink in one, the size, the addresses. */
  datatype Inode = Inode(kind: nat, link: nat, size: nat, addrs: seq<nat>)

  ghost predicate InodeOk(ino: Inode)
  {
    ino.kind < UINT && ino.link < UINT && ino.size < UINT && |ino.addrs| == NDIRECT + 1
    && forall i :: 0 <= i < |ino.addrs| ==> ino.addrs[i] < UINT
  }

  function Words(ino: Inode): (ws: seq<nat>) { [ino.kind, ino.link, ino.size] + ino.addrs }

  /** The block with the words ws from word number `at` on. */
  function PutWords(b: Block, at: nat, ws: seq<nat>): (b': Block)
    requires |b| == BSIZE && at + |ws| <= NINDIRECT && forall i :: 0 <= i < |ws| ==> ws[i] < UINT
    ensures |b'| == BSIZE
    decreases |ws|
  {
    if ws == [] then b else PutWords(SetWord(b, at, ws[0]), at + 1, ws[1..])
  }

  lemma {:induction false} PutWordsSets(b: Block, at: nat, ws: seq<nat>, j: nat)
    requires |b| == BSIZE && at + |ws| <= NINDIRECT && j < NINDIRECT && forall i :: 0 <= i < |ws| ==> ws[i] < UINT
    ensures WordAt(PutWords(b, at, ws), j) == if at <= j < at + |ws| then ws[j - at] else WordAt(b, j)
    decreases |ws|
  {
    if ws != [] {
      PutWordsSets(SetWord(b, at, ws[0]), at + 1, ws[1..], j);
      SetWordSets(b, at, ws[0], j);
    }
  }

  function WordsFrom(b: Block, at: nat, n: nat): (ws: seq<nat>)
    requires |b| == BSIZE && at + n <= NINDIRECT
    ensures |ws| == n && forall i :: 0 <= i < n ==> ws[i] == WordAt(b, at + i) < UINT
  {
    if n == 0 then [] else WordsFrom(b, at, n - 1) + [WordAt(b, at + n - 1)]
  }

  function GetInode(b: Block, slot: nat): (ino: Inode)
    requires |b| == BSIZE && slot < IPB
  {
    Inode(WordAt(b, WORDS * slot), WordAt(b, WORDS * slot + 1), WordAt(b, WORDS * slot + 2),
          WordsFrom(b, WORDS * slot + 3, NDIRECT + 1))
  }

  /** Little-endian numbers of two and four bytes. */
  function Short(b: Block, at: nat): (n: nat)
    requires at + 2 <= |b|
  {
    b[at] as nat + 256 * b[at + 1] as nat
  }

  function Long(b: Block, at: nat): (n: nat)
    requires at + 4 <= |b|
  {
    Short(b, at) + 65536 * Short(b, at + 2)
  }

  /** The layout of src/fs.h: inode `slot` starts at byte 64 * slot with type, major, minor and nlink of
      two bytes each, then come the size and thirteen addresses of four bytes each. */
  lemma InodeLayout(b: Block, slot: nat, i: nat)
    requires |b| == 512 && slot < 8 && i < 13
    ensures var ino, at := GetInode(b, slot), 64 * slot;
      && ino.kind == Short(b, at) + 65536 * Short(b, at + 2) && ino.link == Short(b, at + 4) + 65536 * Short(b, at + 6)
      && ino.size == Long(b, at + 8) && |ino.addrs| == 13 && ino.addrs[i] == Long(b, at + 12 + 4 * i)
  {
    assert 4 * (16 * slot + 3 + i) == 64 * slot + 12 + 4 * i;
  }

  /** Block f of a file is its f-th address, or from 12 on the (f - 12)-th number of its table. */
  lemma BlockLayout(disk: seq<Block>, addrs: seq<nat>, f: nat)
    requires DiskOk(disk) && |addrs| == 13 && addrs[12] < |disk| && f < 140
    ensures BlockOf(disk, addrs, f) == if f < 12 then addrs[f] else Long(disk[addrs[12]], 4 * (f - 12))
  {
  }

  /** Inode i is number i % 8 of sector 32 + i / 8. */
  lemma InodePlace(disk: seq<Block>, i: nat)
    requires DiskOk(disk) && 32 + i / 8 < |disk|
    ensures InodeBlock(i) == 32 + i / 8 && ReadInode(disk, i) == GetInode(disk[32 + i / 8], i % 8)
  {
  }

  /** Two slots with the same words hold the same inode. */
  lemma SameWordsSameInode(b: Block, b': Block, slot: nat)
    requires |b| == |b'| == BSIZE && slot < IPB
    requires forall j :: WORDS * slot <= j < WORDS * (slot + 1) ==> WordAt(b', j) == WordAt(b, j)
    ensures GetInode(b', slot) == GetInode(b, slot)
  {
    assert GetInode(b', slot).addrs == GetInode(b, slot).addrs;
  }

  lemma PutGet(b: Block, slot: nat, ino: Inode)
    requires |b| == BSIZE && slot < IPB && InodeOk(ino)
    ensures GetInode(PutWords(b, WORDS * slot, Words(ino)), slot) == ino
  {
    var b', ws := PutWords(b, WORDS * slot, Words(ino)), Words(ino);
    forall j: nat | j < WORDS
      ensures WordAt(b', WORDS * slot + j) == ws[j]
    {
      PutWordsSets(b, WORDS * slot, ws, WORDS * slot + j);
    }
    assert WordAt(b', WORDS * slot + 0) == ws[0];
    assert WordAt(b', WORDS * slot + 1) == ws[1] && WordAt(b', WORDS * slot + 2) == ws[2];
    forall i: nat | i < NDIRECT + 1
      ensures GetInode(b', slot).addrs[i] == ino.addrs[i]
    {
      assert WordAt(b', WORDS * slot + (3 + i)) == ws[3 + i];
    }
    assert GetInode(b', slot).addrs == ino.addrs;
  }

  lemma PutSparesOthers(b: Block, slot: nat, ino: Inode, other: nat)
    requires |b| == BSIZE && slot < IPB && other < IPB && other != slot && InodeOk(ino)
    ensures GetInode(PutWords(b, WORDS * slot, Words(ino)), other) == GetInode(b, other)
  {
    var b' := PutWords(b, WORDS * slot, Words(ino));
    forall j: nat | WORDS * other <= j < WORDS * (other + 1)
      ensures WordAt(b', j) == WordAt(b, j)
    {
      PutWordsSets(b, WORDS * slot, Words(ino), j);
    }
    SameWordsSameInode(b, b', other);
  }

  // ----- rinode and winode -----

  function InodeBlock(inum: nat): (b: nat) { inum / IPB + INODESTART }

  function ReadInode(disk: seq<Block>, inum: nat): (ino: Inode)
    requires InodeBlock(inum) < |disk| && |disk[InodeBlock(inum)]| == BSIZE
  {
    GetInode(disk[InodeBlock(inum)], inum % IPB)
  }

  ghost function WriteInode(disk: seq<Block>, inum: nat, ino: Inode): (disk': seq<Block>)
    requires DiskOk(disk) && InodeBlock(inum) < |disk| && InodeOk(ino)
    ensures DiskOk(disk') && |disk'| == |disk|
  {
    disk[InodeBlock(inum) := PutWords(disk[InodeBlock(inum)], WORDS * (inum % IPB), Words(ino))]
  }

  /** `winode` changes that inode and no other, although eight share the sector. */
  lemma WriteChangesOne(disk: seq<Block>, inum: nat, ino: Inode, j: nat)
    requires DiskOk(disk) && InodeBlock(inum) < |disk| && InodeBlock(j) < |disk| && InodeOk(ino)
    ensures ReadInode(WriteInode(disk, inum, ino), j) == if j == inum then ino else ReadInode(disk, j)
  {
    if j == inum {
      PutGet(disk[InodeBlock(inum)], inum % IPB, ino);
    } else if InodeBlock(j) == InodeBlock(inum) {
      assert j % IPB != inum % IPB;
      PutSparesOthers(disk[InodeBlock(inum)], inum % IPB, ino, j % IPB);
    }
  }

  /** An inode lies in the inode area if and only if its number is below 208.  The next eight lie in
      the sector of the bitmap, all others in the data area. */
  lemma InodeAreaWhen(inum: nat)
    ensures INODESTART <= InodeBlock(inum) < BMAPSTART <==> inum < NINODES
    ensures InodeBlock(inum) == BMAPSTART <==> NINODES <= inum < NINODES + IPB
    ensures NMETA <= InodeBlock(inum) <==> NINODES + IPB <= inum
  {
  }

  // ----- the bitmap -----

  function Mask(k: nat): (m: bv8)
    requires k < 8
  {
    1 << k
  }

  predicate Bit(x: byte, k: nat)
    requires k < 8
  {
    x as bv8 & Mask(k) != 0
  }

  function OrBit(x: byte, k: nat): (y: byte)
    requires k < 8
  {
    (x as bv8 | Mask(k)) as byte
  }

  lemma MaskTable(k: nat)
    requires k < 8
    ensures Mask(k) == if k == 0 then 1 else if k == 1 then 2 else if k == 2 then 4 else if k == 3 then 8
                       else if k == 4 then 16 else if k == 5 then 32 else if k == 6 then 64 else 128
  {
  }

  lemma MasksDiffer(k: nat, j: nat)
    requires k < 8 && j < 8
    ensures Mask(k) & (Mask(k) - 1) == 0 && Mask(k) != 0 && (Mask(k) == Mask(j) <==> k == j)
  {
    MaskTable(k);
    MaskTable(j);
  }

  lemma OrSetsBit(b: bv8, m: bv8, n: bv8)
    requires m != 0 && n != 0 && m & (m - 1) == 0 && n & (n - 1) == 0
    ensures (b | m) & n != 0 <==> b & n != 0 || m == n
  {
  }

  lemma ByteAndBack(v: bv8)
    ensures v as byte as bv8 == v
  {
  }

  lemma OrBitSets(x: byte, k: nat, j: nat)
    requires k < 8 && j < 8
    ensures Bit(OrBit(x, k), j) <==> Bit(x, j) || j == k
  {
    OrMask(x as bv8, k, j);
    ByteAndBack(x as bv8 | Mask(k));
  }

  lemma OrMask(v: bv8, k: nat, j: nat)
    requires k < 8 && j < 8
    ensures (v | Mask(k)) & Mask(j) != 0 <==> v & Mask(j) != 0 || j == k
  {
    MasksDiffer(k, j);
    MasksDiffer(j, k);
    OrSetsBit(v, Mask(k), Mask(j));
  }

  predicate Marked(b: Block, i: nat)
    requires i / 8 < |b|
  {
    Bit(b[i / 8], i % 8)
  }

  /** Setting bit i sets that bit and no other. */
  lemma MarkOne(b: Block, i: nat, j: nat)
    requires i / 8 < |b| && j / 8 < |b|
    ensures Marked(b[i / 8 := OrBit(b[i / 8], i % 8)], j) <==> Marked(b, j) || j == i
  {
    if i / 8 == j / 8 {
      OrBitSets(b[i / 8], i % 8, j % 8);
    }
  }

  lemma LinkBytes(b: Block, w: nat)
    requires |b| == BSIZE && w < NINDIRECT && WordAt(b, w) == ONELINK
    ensures b[4 * w] == 0 && b[4 * w + 2] == 1
  {
  }

  lemma FirstBits(x: byte)
    ensures x == 0 ==> !Bit(x, 0)
    ensures x == 1 ==> Bit(x, 0)
  {
  }

  /** A bitmap, whose ones all come first, never holds an inode in use: the link word of one has a
      one behind zeros. */
  lemma BitmapIsNoInode(b: Block, used: nat, slot: nat)
    requires |b| == BSIZE && slot < IPB && forall i: nat :: i < BSIZE * 8 ==> (Marked(b, i) <==> i < used)
    ensures GetInode(b, slot).link != ONELINK
  {
    var w := WORDS * slot + 1;
    if WordAt(b, w) == ONELINK {
      LinkBytes(b, w);
      FirstBits(b[4 * w]);
      FirstBits(b[4 * w + 2]);
      assert !Marked(b, 8 * (4 * w)) && Marked(b, 8 * (4 * w + 2));
    }
  }
}
