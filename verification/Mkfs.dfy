/**
  `ialloc`, `iappend` and `balloc` of mkfs (src/mkfs.c:223-297) on an image, refining a map from
  inode numbers to byte sequences.  A result `ok == false` stands for the tool giving up: a failed
  assertion, or a sector behind the end of the image.
 */
module Mkfs {
  import opened Common
  import opened MkfsFiles
  import opened MkfsInodes

  const BITS: nat := BSIZE * 8
  const LIMIT: nat := NINODES + IPB   // inodes that lie before the data area

  /** Inode i and the file it stands for. */
  ghost predicate FileSound(disk: seq<Block>, owners: map<nat, Owner>, i: nat, ino: Inode, bytes: seq<byte>)
    requires DiskOk(disk)
  {
    && InodeOk(ino) && ino.link == ONELINK && ino.size == |bytes|
    && FileOk(disk, owners, i, ino.addrs, Blocks(|bytes|)) && Holds(disk, ino.addrs, bytes)
  }

  /** The inodes up to `inodes` read as their files. */
  ghost predicate FilesSound(disk: seq<Block>, owners: map<nat, Owner>, inodes: nat, files: map<nat, seq<byte>>,
                             except: set<nat>)
    requires DiskOk(disk) && inodes <= LIMIT
  {
    forall i: nat {:trigger i in files} :: 1 <= i < inodes && i !in except ==>
      i in files && FileSound(disk, owners, i, ReadInode(disk, i), files[i])
  }

  /** The sectors before the data area are the same on both disks. */
  ghost predicate MetaKept(disk: seq<Block>, disk': seq<Block>)
  {
    NMETA <= |disk| == |disk'| && forall b :: 0 <= b < NMETA ==> disk'[b] == disk[b]
  }

  /** Work on one file leaves the others as they were. */
  lemma OthersSound(disk: seq<Block>, disk': seq<Block>, owners: map<nat, Owner>, owners': map<nat, Owner>,
                    inodes: nat, files: map<nat, seq<byte>>, inum: nat)
    requires DiskOk(disk) && DiskOk(disk') && inodes <= LIMIT && FilesSound(disk, owners, inodes, files, {inum})
    requires Grows(owners, owners') && (forall j: nat :: j != inum ==> SameBlocks(disk, disk', owners, j))
    requires MetaKept(disk, disk')
    ensures FilesSound(disk', owners', inodes, files, {inum})
  {
    forall i: nat | 1 <= i < inodes && i != inum
      ensures i in files && FileSound(disk', owners', i, ReadInode(disk', i), files[i])
    {
      FileKept(disk, disk', owners, owners', i, files[i]);
    }
  }

  lemma FileKept(disk: seq<Block>, disk': seq<Block>, owners: map<nat, Owner>, owners': map<nat, Owner>, i: nat,
                 bytes: seq<byte>)
    requires DiskOk(disk) && DiskOk(disk') && i < LIMIT && FileSound(disk, owners, i, ReadInode(disk, i), bytes)
    requires Grows(owners, owners') && SameBlocks(disk, disk', owners, i) && ReadInode(disk', i) == ReadInode(disk, i)
    ensures FileSound(disk', owners', i, ReadInode(disk', i), bytes)
  {
    var addrs := ReadInode(disk, i).addrs;
    FileOkFrame(disk, disk', owners, owners', i, addrs, Blocks(|bytes|));
    HoldsFrame(disk, disk', owners, i, addrs, Blocks(|bytes|), bytes);
  }

  /** Writing an inode completes the file it belongs to and leaves the others as they were. */
  lemma InodeWritten(disk: seq<Block>, owners: map<nat, Owner>, free: nat, inodes: nat, files: map<nat, seq<byte>>,
                     inum: nat, ino: Inode, bytes: seq<byte>)
    requires DiskOk(disk) && OwnersOk(owners, free)
    requires inodes <= LIMIT && FilesSound(disk, owners, inodes, files, {inum})
    requires inum < LIMIT && FileSound(disk, owners, inum, ino, bytes)
    ensures var n := if inum == inodes then inodes + 1 else inodes;
      FilesSound(WriteInode(disk, inum, ino), owners, n, files[inum := bytes], {})
  {
    var disk' := WriteInode(disk, inum, ino);
    InodeAreaWhen(inum);
    WriteChangesOne(disk, inum, ino, inum);
    forall i: nat | 1 <= i < (if inum == inodes then inodes + 1 else inodes)
      ensures i in files[inum := bytes] && FileSound(disk', owners, i, ReadInode(disk', i), files[inum := bytes][i])
    {
      WriteChangesOne(disk, inum, ino, i);
      if i != inum {
        FileKept(disk, disk', owners, owners, i, files[i]);
      } else {
        FileOkFrame(disk, disk', owners, owners, inum, ino.addrs, Blocks(|bytes|));
        HoldsFrame(disk, disk', owners, inum, ino.addrs, Blocks(|bytes|), bytes);
      }
    }
  }

  /** The addresses of a file fit 32 bits. */
  lemma AddressesFit(disk: seq<Block>, owners: map<nat, Owner>, free: nat, inum: nat, addrs: seq<nat>, nb: nat)
    requires DiskOk(disk) && OwnersOk(owners, free) && free <= |disk| && FileOk(disk, owners, inum, addrs, nb)
    ensures forall i :: 0 <= i < |addrs| ==> addrs[i] < UINT
  {
  }

  /** Writing a block of another file is harmless too. */
  lemma SameBlocksThen(disk0: seq<Block>, disk1: seq<Block>, disk2: seq<Block>, owners: map<nat, Owner>,
                       owners': map<nat, Owner>, j: nat, x: nat)
    requires SameBlocks(disk0, disk1, owners, j) && Grows(owners, owners')
    requires x < |disk1| && x in owners' && owners'[x].inum != j && |disk2| == |disk1| && disk2 == disk1[x := disk2[x]]
    ensures SameBlocks(disk0, disk2, owners, j)
  {
  }

  /** A file may grow from n to m bytes with so many blocks left. */
  predicate Fits(n: nat, m: nat, left: int)
  {
    m <= MAXFILE * BSIZE && Footprint(Blocks(m)) - Footprint(Blocks(n)) <= left
  }

  /** A file holds at most 140 blocks of 512 bytes, and takes one block more than its data from the
      thirteenth on. */
  lemma FitsIs(n: nat, m: nat, left: int)
    ensures Fits(n, m, left) <==>
      && m <= 71680
      && (m + 511) / 512 + (if m > 6144 then 1 else 0)
         <= left + (n + 511) / 512 + (if n > 6144 then 1 else 0)
  {
  }

  /** More bytes never take fewer blocks. */
  lemma MoreBlocks(off: nat, n: nat, end: nat)
    requires off + n <= end
    ensures Footprint(Blocks(off + n)) <= Footprint(Blocks(end))
  {
  }

  lemma AppendedTo(s: seq<byte>, p: seq<byte>, i: nat, j: nat)
    requires i <= j <= |p|
    ensures s + p[..i] + p[i..j] == s + p[..j]
  {
  }

  /** How much of `left` bytes goes into the block at offset off. */
  function ChunkSize(off: nat, left: nat): (n: nat)
    ensures n <= left && n <= BSIZE - off % BSIZE && (left > 0 ==> n > 0)
  {
    var fbn := off / BSIZE;
    if left < (fbn + 1) * BSIZE - off then left else (fbn + 1) * BSIZE - off
  }

  lemma BitmapSpares(disk: seq<Block>, owners: map<nat, Owner>, free: nat, inodes: nat, files: map<nat, seq<byte>>,
                     buf: Block)
    requires DiskOk(disk) && OwnersOk(owners, free) && inodes <= LIMIT && FilesSound(disk, owners, inodes, files, {})
    requires |buf| == BSIZE
    ensures FilesSound(disk[BMAPSTART := buf], owners, Min(inodes, NINODES), files, {})
  {
    forall i: nat | 1 <= i < Min(inodes, NINODES)
      ensures i in files && FileSound(disk[BMAPSTART := buf], owners, i, ReadInode(disk[BMAPSTART := buf], i), files[i])
    {
      InodeAreaWhen(i);
      OneOfMany(disk, owners, inodes, files, i);
      FileKept(disk, disk[BMAPSTART := buf], owners, owners, i, files[i]);
    }
  }

  lemma FewerSound(disk: seq<Block>, owners: map<nat, Owner>, inodes: nat, files: map<nat, seq<byte>>, n: nat)
    requires DiskOk(disk) && n <= inodes <= LIMIT && FilesSound(disk, owners, inodes, files, {})
    ensures FilesSound(disk, owners, n, files, {})
  {
    forall i: nat | 1 <= i < n
      ensures i in files && FileSound(disk, owners, i, ReadInode(disk, i), files[i])
    {
      OneOfMany(disk, owners, inodes, files, i);
    }
  }

  /** Behind the bitmap write an inode reads as it was written if and only if it is below 208. */
  lemma SurvivesBitmapWhen(disk: seq<Block>, owners: map<nat, Owner>, inodes: nat, files: map<nat, seq<byte>>,
                           buf: Block, used: nat, i: nat)
    requires DiskOk(disk) && inodes <= LIMIT && FilesSound(disk, owners, inodes, files, {}) && 1 <= i < inodes
    requires |buf| == BSIZE && used < BITS && forall b: nat :: b < BITS ==> (Marked(buf, b) <==> b < used)
    ensures ReadInode(disk[BMAPSTART := buf], i) == ReadInode(disk, i) <==> i < NINODES
  {
    InodeAreaWhen(i);
    if i >= NINODES {
      OneOfMany(disk, owners, inodes, files, i);
      BitmapIsNoInode(buf, used, i % IPB);
    }
  }

  // ----- inodes in the data area -----

  /** Changing one block matters to a file only if it refers to it. */
  lemma UnreferredKept(disk: seq<Block>, b: nat, block: Block, owners: map<nat, Owner>, j: nat, ino: Inode,
                       bytes: seq<byte>)
    requires DiskOk(disk) && b < |disk| && |block| == BSIZE && FileSound(disk, owners, j, ino, bytes)
    requires forall f: nat :: !Refers(disk, ino.addrs, Blocks(|bytes|), f, b)
    ensures FileSound(disk[b := block], owners, j, ino, bytes)
  {
    var nb, disk' := Blocks(|bytes|), disk[b := block];
    TableUnreferred(disk, ino.addrs, nb, b);
    forall k | 0 <= k < |bytes|
      ensures HasByte(disk', ino.addrs, k, bytes[k])
    {
      assert HasByte(disk, ino.addrs, k, bytes[k]);
      assert !Refers(disk, ino.addrs, nb, k / BSIZE, b);
      SameBlockOf(disk, disk', ino.addrs, nb, k / BSIZE, b);
    }
  }

  lemma TableUnreferred(disk: seq<Block>, addrs: seq<nat>, nb: nat, b: nat)
    requires DiskOk(disk) && |addrs| == NDIRECT + 1 && addrs[NDIRECT] < |disk| && !Refers(disk, addrs, nb, MAXFILE, b)
    ensures nb > NDIRECT ==> addrs[NDIRECT] != b
  {
  }

  lemma SameBlockOf(disk: seq<Block>, disk': seq<Block>, addrs: seq<nat>, nb: nat, f: nat, b: nat)
    requires DiskOk(disk) && DiskOk(disk') && b < |disk| == |disk'| && disk' == disk[b := disk'[b]]
    requires |addrs| == NDIRECT + 1 && addrs[NDIRECT] < |disk|
    requires f < nb <= MAXFILE && (nb > NDIRECT ==> addrs[NDIRECT] != b)
    ensures BlockOf(disk', addrs, f) == BlockOf(disk, addrs, f)
  {
  }

  /** An inode from 216 on lies in a data block.  A file that does not refer to that block is not
      touched; one whose data it is keeps its contents if and only if the block now holds the same
      bytes as far as the file goes; one whose table it is is no longer sound. */
  lemma DataBlockHit(disk: seq<Block>, owners: map<nat, Owner>, free: nat, inum: nat, kind: nat, j: nat, ino: Inode,
                     bytes: seq<byte>, f: nat)
    requires DiskOk(disk) && OwnersOk(owners, free) && free <= |disk| <= ONELINK && InodeBlock(inum) < |disk|
    requires LIMIT <= inum && kind < 0x1_0000 && FileSound(disk, owners, j, ino, bytes)
    ensures var b := InodeBlock(inum); var disk' := WriteInode(disk, inum, NewInode(kind));
      && ((forall g: nat :: !Refers(disk, ino.addrs, Blocks(|bytes|), g, b)) ==>
            FileSound(disk', owners, j, ino, bytes))
      && (f < MAXFILE && Refers(disk, ino.addrs, Blocks(|bytes|), f, b) ==>
            (FileSound(disk', owners, j, ino, bytes) <==> Agrees(disk'[b], bytes, f)))
      && (Refers(disk, ino.addrs, Blocks(|bytes|), MAXFILE, b) ==> !FileSound(disk', owners, j, ino, bytes))
  {
    var b, nb := InodeBlock(inum), Blocks(|bytes|);
    var disk' := WriteInode(disk, inum, NewInode(kind));
    if forall g: nat :: !Refers(disk, ino.addrs, nb, g, b) {
      UnreferredKept(disk, b, disk'[b], owners, j, ino, bytes);
    }
    if f < MAXFILE && Refers(disk, ino.addrs, nb, f, b) {
      DataHit(disk, disk'[b], owners, j, ino, bytes, f);
    }
    if Refers(disk, ino.addrs, nb, MAXFILE, b) {
      TableHit(disk, owners, free, inum, kind, j, ino, bytes);
    }
  }

  /** Block number f of the file holds these bytes. */
  ghost predicate Agrees(block: Block, bytes: seq<byte>, f: nat)
    requires |block| == BSIZE
  {
    forall k :: 0 <= k < |bytes| && k / BSIZE == f ==> block[k % BSIZE] == bytes[k]
  }

  lemma DataHit(disk: seq<Block>, block: Block, owners: map<nat, Owner>, j: nat, ino: Inode, bytes: seq<byte>, f: nat)
    requires DiskOk(disk) && |block| == BSIZE && FileSound(disk, owners, j, ino, bytes) && f < Blocks(|bytes|)
    requires ino.addrs[NDIRECT] < |disk| && BlockOf(disk, ino.addrs, f) < |disk|
    ensures FileSound(disk[BlockOf(disk, ino.addrs, f) := block], owners, j, ino, bytes) <==> Agrees(block, bytes, f)
  {
    var nb, b := Blocks(|bytes|), BlockOf(disk, ino.addrs, f);
    var disk' := disk[b := block];
    WriteKeepsFile(disk, owners, j, ino.addrs, nb, f, block);
    forall k | 0 <= k < |bytes|
      ensures HasByte(disk', ino.addrs, k, bytes[k]) <==> (k / BSIZE == f ==> block[k % BSIZE] == bytes[k])
    {
      assert HasByte(disk, ino.addrs, k, bytes[k]);
      BlockOwned(disk, owners, j, ino.addrs, nb, k / BSIZE);
      BlockOwned(disk, owners, j, ino.addrs, nb, f);
    }
    if Holds(disk', ino.addrs, bytes) {
      forall k | 0 <= k < |bytes| && k / BSIZE == f
        ensures block[k % BSIZE] == bytes[k]
      {
        assert HasByte(disk', ino.addrs, k, bytes[k]);
      }
    }
  }

  /** The link word of the inode becomes an address of the table, and leads nowhere. */
  lemma TableHit(disk: seq<Block>, owners: map<nat, Owner>, free: nat, inum: nat, kind: nat, j: nat, ino: Inode,
                 bytes: seq<byte>)
    requires DiskOk(disk) && OwnersOk(owners, free) && free <= |disk| <= ONELINK
    requires InodeBlock(inum) < |disk| && kind < 0x1_0000
    requires FileSound(disk, owners, j, ino, bytes) && Blocks(|bytes|) > NDIRECT
    requires ino.addrs[NDIRECT] == InodeBlock(inum)
    ensures !FileSound(WriteInode(disk, inum, NewInode(kind)), owners, j, ino, bytes)
  {
    var b, disk', w := InodeBlock(inum), WriteInode(disk, inum, NewInode(kind)), WORDS * (inum % IPB) + 1;
    PutWordsSets(disk[b], WORDS * (inum % IPB), Words(NewInode(kind)), w);
    assert WordAt(disk'[b], w) == ONELINK;
    assert !TableOk(disk'[b], owners, j, Blocks(|bytes|) - NDIRECT);
  }

  /** All inodes before the data area but this one are the same. */
  ghost predicate OtherInodesKept(disk: seq<Block>, disk': seq<Block>, inum: nat)
  {
    && DiskOk(disk) && DiskOk(disk') && |disk'| == |disk|
    && forall j: nat {:trigger ReadInode(disk', j)} :: j < LIMIT && j != inum ==>
      ReadInode(disk', j) == ReadInode(disk, j)
  }

  lemma InodeKept(disk: seq<Block>, inum: nat, ino: Inode)
    requires DiskOk(disk) && InodeBlock(inum) < |disk| && InodeOk(ino)
    ensures ReadInode(WriteInode(disk, inum, ino), inum) == ino
    ensures OtherInodesKept(disk, WriteInode(disk, inum, ino), inum)
  {
    WriteChangesOne(disk, inum, ino, inum);
    forall j: nat | j < LIMIT && j != inum
      ensures ReadInode(WriteInode(disk, inum, ino), j) == ReadInode(disk, j)
    {
      WriteChangesOne(disk, inum, ino, j);
    }
  }

  lemma InodesKeptThen(disk0: seq<Block>, disk1: seq<Block>, disk2: seq<Block>, inum: nat)
    requires DiskOk(disk0) && MetaKept(disk0, disk1) && OtherInodesKept(disk1, disk2, inum)
    ensures OtherInodesKept(disk0, disk2, inum)
  {
    forall j: nat | j < LIMIT && j != inum
      ensures ReadInode(disk2, j) == ReadInode(disk0, j)
    {
      assert ReadInode(disk2, j) == ReadInode(disk1, j);
    }
  }

  /** An inode of this type with one link, no bytes and no blocks. */
  predicate IsNew(ino: Inode, kind: nat)
  {
    && ino.kind == kind && ino.link == 0x1_0000 && ino.size == 0
    && |ino.addrs| == 13 && forall i :: 0 <= i < 13 ==> ino.addrs[i] == 0
  }

  function NewInode(kind: nat): (ino: Inode)
    ensures ino.kind == kind && ino.link == 0x1_0000 && ino.size == 0
    ensures |ino.addrs| == 13 && forall i :: 0 <= i < 13 ==> ino.addrs[i] == 0
  {
    Inode(kind, ONELINK, 0, [0, 0, 0, 0, 0, 0, 0, 0, 0, 0, 0, 0, 0])
  }

  lemma EmptyFile(disk: seq<Block>, owners: map<nat, Owner>, inum: nat, kind: nat)
    requires DiskOk(disk) && kind < 0x1_0000
    ensures FileSound(disk, owners, inum, NewInode(kind), [])
  {
  }

  lemma OneOfMany(disk: seq<Block>, owners: map<nat, Owner>, inodes: nat, files: map<nat, seq<byte>>, inum: nat)
    requires DiskOk(disk) && inodes <= LIMIT && FilesSound(disk, owners, inodes, files, {}) && 1 <= inum < inodes
    ensures inum in files && FileSound(disk, owners, inum, ReadInode(disk, inum), files[inum])
    ensures FilesSound(disk, owners, inodes, files, {inum})
  {
    assert inum in files;
  }

  ghost predicate Unfold(i: nat) { true }

  class Image {
    var disk: seq<Block>
    var freeinode: nat
    var freeblock: nat
    ghost var owners: map<nat, Owner>
    ghost var files: map<nat, seq<byte>>

    ghost predicate Sectors()
      reads this
    {
      DiskOk(disk) && OwnersOk(owners, freeblock) && FreeIsZero(disk, freeblock)
    }

    /** Every inode reads as its byte sequence. */
    ghost predicate Valid()
      reads this
    {
      && Sectors() && freeblock <= |disk|
      && 1 <= freeinode <= LIMIT && (forall i: nat {:trigger i in files} :: i in files <==> 1 <= i < freeinode)
      && FilesSound(disk, owners, freeinode, files, {})
    }

    /** An image of n zeroed sectors. */
    constructor (n: nat)
      requires NMETA <= n < UINT
      ensures Valid() && files == map[] && freeblock == NMETA && |disk| == n && freeinode == 1
    {
      disk := seq(n, _ => seq(BSIZE, _ => 0));
      freeinode, freeblock, owners, files := 1, NMETA, map[], map[];
    }

    method RSect(sec: nat) returns (ok: bool, buf: Block)
      ensures ok <==> sec < |disk|
      ensures ok ==> buf == disk[sec]
    {
      if sec < |disk| {
        return true, disk[sec];
      }
      return false, [];
    }

    /** `rinode`. */
    method RInode(inum: nat) returns (ino: Inode)
      requires DiskOk(disk) && InodeBlock(inum) < |disk|
      ensures ino == ReadInode(disk, inum)
    {
      var ok, buf := RSect(inum / IPB + INODESTART);
      ino := GetInode(buf, inum % IPB);
    }

    /** `winode`. */
    method WInode(inum: nat, ino: Inode) returns (ok: bool)
      requires DiskOk(disk) && InodeOk(ino)
      modifies this`disk
      ensures ok <==> InodeBlock(inum) < |old(disk)|
      ensures disk == if ok then WriteInode(old(disk), inum, ino) else old(disk)
      ensures ok ==> ReadInode(disk, inum) == ino && OtherInodesKept(old(disk), disk, inum)
    {
      var bn, buf := inum / IPB + INODESTART, [];
      ok, buf := RSect(bn);
      if ok {
        disk := disk[bn := PutWords(buf, WORDS * (inum % IPB), Words(ino))];
        InodeKept(old(disk), inum, ino);
      }
    }

    /** `ialloc`: a new empty file, on any image whatever.  mkfs does not test that the inode area has
        room: below 216 the new inode reads as an empty file and the others as before, until `balloc`
        writes the bitmap; from 216 on it overwrites a block of the data area. */
    method IAlloc(kind: nat) returns (ok: bool, inum: nat)
      requires DiskOk(disk) && kind < 0x1_0000
      modifies this`disk, this`freeinode, this`files
      ensures inum == old(freeinode) && freeinode == inum + 1 && (ok <==> InodeBlock(inum) < |old(disk)|)
      ensures ok ==> disk == WriteInode(old(disk), inum, NewInode(kind))
      ensures ok ==> IsNew(ReadInode(disk, inum), kind)
      ensures ok ==> OtherInodesKept(old(disk), disk, inum)
      ensures old(Valid()) && inum < LIMIT ==> ok && Valid() && inum !in old(files) && files == old(files)[inum := []]
      ensures ok && inum >= LIMIT ==> NMETA <= InodeBlock(inum) < |disk| && files == old(files)
    {
      inum := freeinode;
      freeinode := freeinode + 1;
      ok := WInode(inum, NewInode(kind));
      InodeAreaWhen(inum);
      if inum < LIMIT {
        ghost var was := files;
        files := files[inum := []];
        if old(Valid()) {
          EmptyFile(old(disk), owners, inum, kind);
          InodeWritten(old(disk), owners, freeblock, inum, was, inum, NewInode(kind), []);
        }
      }
    }

    /** The address of block fbn of the file, allocated if it is missing: a direct block. */
    method LocateDirect(inum: nat, addrs: seq<nat>, fbn: nat, ghost s: seq<byte>) returns (addrs': seq<nat>, x: nat)
      requires Sectors() && freeblock <= |disk| && fbn == |s| / BSIZE < NDIRECT
      requires FileOk(disk, owners, inum, addrs, Blocks(|s|)) && Holds(disk, addrs, s)
      modifies this`freeblock, this`owners
      ensures Sectors() && Grows(old(owners), owners)
      ensures freeblock + Footprint(Blocks(|s|)) == old(freeblock) + Footprint(fbn + 1)
      ensures FileOk(disk, owners, inum, addrs', fbn + 1) && Holds(disk, addrs', s)
      ensures addrs'[NDIRECT] < |disk| && x == BlockOf(disk, addrs', fbn) && (x < |disk| <==> freeblock <= |disk|)
    {
      addrs' := addrs;
      if Blocks(|s|) == fbn {
        AllocDirect(disk, owners, inum, addrs, fbn, freeblock);
      } else {
        BlockOwned(disk, owners, inum, addrs, fbn + 1, fbn);
      }
      if addrs[fbn] == 0 {
        addrs' := addrs[fbn := freeblock];
        ghost var was := owners;
        owners := owners[freeblock := Data(inum, fbn)];
        freeblock := freeblock + 1;
        AllocKeepsBytes(disk, was, addrs, disk, owners, addrs', inum, fbn, s);
      }
      x := addrs'[fbn];
    }

    /** Enter the next block in a table that exists. */
    method ExtendTable(inum: nat, addrs: seq<nat>, fbn: nat, indirect: Block, ghost s: seq<byte>)
      requires Sectors() && freeblock <= |disk| && NDIRECT < fbn == |s| / BSIZE == Blocks(|s|) < MAXFILE
      requires FileOk(disk, owners, inum, addrs, fbn) && Holds(disk, addrs, s) && indirect == disk[addrs[NDIRECT]]
      modifies this`disk, this`freeblock, this`owners
      ensures Sectors() && Grows(old(owners), owners) && MetaKept(old(disk), disk)
      ensures forall j: nat :: j != inum ==> SameBlocks(old(disk), disk, old(owners), j)
      ensures freeblock == old(freeblock) + 1
      ensures FileOk(disk, owners, inum, addrs, fbn + 1) && Holds(disk, addrs, s)
      ensures BlockOf(disk, addrs, fbn) == old(freeblock)
    {
      ghost var disk0, owners0 := disk, owners;
      var t, j := addrs[NDIRECT], fbn - NDIRECT;
      AllocIndirect(disk, owners, inum, addrs, fbn, freeblock);
      owners := owners[freeblock := Data(inum, fbn)];
      disk := disk[t := SetWord(indirect, j, freeblock)];
      freeblock := freeblock + 1;
      forall f: nat | f <= fbn
        ensures BlockOf(disk, addrs, f) == if f == fbn then old(freeblock) else BlockOf(disk0, addrs, f)
      {
        if f >= NDIRECT {
          SetWordSets(indirect, j, old(freeblock), f - NDIRECT);
        }
      }
      AllocKeepsBytes(disk0, owners0, addrs, disk, owners, addrs, inum, fbn, s);
    }

    /** Allocate the table and enter its first block. */
    method NewTable(inum: nat, addrs: seq<nat>, ghost s: seq<byte>) returns (ok: bool, addrs': seq<nat>)
      requires Sectors() && freeblock <= |disk| && NDIRECT == |s| / BSIZE == Blocks(|s|)
      requires FileOk(disk, owners, inum, addrs, NDIRECT) && Holds(disk, addrs, s)
      modifies this`disk, this`freeblock, this`owners
      ensures |disk| == |old(disk)| && (ok <==> old(freeblock) < |disk|)
      ensures ok ==> Sectors() && Grows(old(owners), owners) && MetaKept(old(disk), disk)
      ensures ok ==> forall j: nat :: j != inum ==> SameBlocks(old(disk), disk, old(owners), j)
      ensures ok ==> freeblock == old(freeblock) + 2
      ensures ok ==> FileOk(disk, owners, inum, addrs', NDIRECT + 1) && Holds(disk, addrs', s)
      ensures ok ==> BlockOf(disk, addrs', NDIRECT) == old(freeblock) + 1
    {
      ghost var disk0, owners0 := disk, owners;
      var t := freeblock;
      addrs' := addrs[NDIRECT := t];
      var indirect;
      ok, indirect := RSect(t);
      if !ok {
        return;
      }
      AllocTable(disk, owners, inum, addrs, t, t + 1);
      SetWordSets(indirect, 0, t + 1, 0);
      owners := owners[t := Index(inum)][t + 1 := Data(inum, NDIRECT)];
      disk := disk[t := SetWord(indirect, 0, t + 1)];
      freeblock := freeblock + 2;
      AllocKeepsBytes(disk0, owners0, addrs, disk, owners, addrs', inum, NDIRECT, s);
    }

    /** The address of block fbn of the file, allocated if it is missing: an indirect block. */
    method LocateIndirect(inum: nat, addrs: seq<nat>, fbn: nat, ghost s: seq<byte>)
      returns (ok: bool, addrs': seq<nat>, x: nat)
      requires Sectors() && freeblock <= |disk| && NDIRECT <= fbn == |s| / BSIZE < MAXFILE
      requires FileOk(disk, owners, inum, addrs, Blocks(|s|)) && Holds(disk, addrs, s)
      modifies this`disk, this`freeblock, this`owners
      ensures |disk| == |old(disk)|
      ensures !ok ==> old(freeblock) + Footprint(fbn + 1) > |disk| + Footprint(Blocks(|s|))
      ensures ok ==> Sectors() && Grows(old(owners), owners) && MetaKept(old(disk), disk)
      ensures ok ==> forall j: nat :: j != inum ==> SameBlocks(old(disk), disk, old(owners), j)
      ensures ok ==> freeblock + Footprint(Blocks(|s|)) == old(freeblock) + Footprint(fbn + 1)
      ensures ok ==> FileOk(disk, owners, inum, addrs', fbn + 1) && Holds(disk, addrs', s)
      ensures ok ==> x == BlockOf(disk, addrs', fbn) && (x < |disk| <==> freeblock <= |disk|)
    {
      addrs' := addrs;
      ok := true;
      if addrs[NDIRECT] == 0 {
        x := freeblock + 1;
        ok, addrs' := NewTable(inum, addrs, s);
        return;
      }
      var indirect;
      ok, indirect := RSect(addrs[NDIRECT]);
      if Blocks(|s|) == fbn {
        AllocIndirect(disk, owners, inum, addrs, fbn, freeblock);
      } else {
        BlockOwned(disk, owners, inum, addrs, fbn + 1, fbn);
      }
      x := WordAt(indirect, fbn - NDIRECT);
      if x == 0 {
        x := freeblock;
        ExtendTable(inum, addrs, fbn, indirect, s);
      }
    }

    /** One round of the loop of `iappend`: copy the bytes c into block fbn behind the end of the file. */
    method AppendChunk(inum: nat, addrs: seq<nat>, fbn: nat, o: nat, c: seq<byte>, ghost s: seq<byte>)
      returns (ok: bool, addrs': seq<nat>)
      requires Sectors() && freeblock <= |disk| && fbn == |s| / BSIZE < MAXFILE
      requires o == |s| % BSIZE && 0 < |c| <= BSIZE - o
      requires FileOk(disk, owners, inum, addrs, Blocks(|s|)) && Holds(disk, addrs, s)
      modifies this`disk, this`freeblock, this`owners
      ensures |disk| == |old(disk)|
      ensures ok <==> old(freeblock) + Footprint(fbn + 1) <= |disk| + Footprint(Blocks(|s|))
      ensures ok ==> Sectors() && Grows(old(owners), owners) && freeblock <= |disk| && MetaKept(old(disk), disk)
      ensures ok ==> forall j: nat :: j != inum ==> SameBlocks(old(disk), disk, old(owners), j)
      ensures ok ==> freeblock + Footprint(Blocks(|s|)) == old(freeblock) + Footprint(fbn + 1)
      ensures ok ==> FileOk(disk, owners, inum, addrs', fbn + 1) && Holds(disk, addrs', s + c)
    {
      var x;
      ok := true;
      if fbn < NDIRECT {
        addrs', x := LocateDirect(inum, addrs, fbn, s);
      } else {
        ok, addrs', x := LocateIndirect(inum, addrs, fbn, s);
        if !ok {
          return;
        }
      }
      var buf;
      ok, buf := RSect(x);
      if !ok {
        return;
      }
      WriteAppends(disk, owners, inum, addrs', fbn + 1, s, c);
      BlockOwned(disk, owners, inum, addrs', fbn + 1, fbn);
      ghost var disk1 := disk;
      disk := disk[x := Splice(buf, o, c)];
      forall j: nat | j != inum
        ensures SameBlocks(old(disk), disk, old(owners), j)
      {
        SameBlocksThen(old(disk), disk1, disk, old(owners), owners, j, x);
      }
    }

    /** In the middle of `iappend`: the file with these addresses reads as s, the others are sound. */
    ghost predicate Midway(inum: nat, addrs: seq<nat>, s: seq<byte>)
      reads this
    {
      && Sectors() && freeblock <= |disk|
      && FileOk(disk, owners, inum, addrs, Blocks(|s|)) && Holds(disk, addrs, s)
      && freeinode <= LIMIT && FilesSound(disk, owners, freeinode, files, {inum})
    }

    /** `Midway`, kept folded except where `Unfold` is mentioned. */
    ghost predicate Appending(inum: nat, addrs: seq<nat>, s: seq<byte>)
      reads this
    {
      forall i {:trigger Unfold(i)} :: i == inum ==> Midway(i, addrs, s)
    }

    lemma AppendingIs(inum: nat, addrs: seq<nat>, s: seq<byte>)
      ensures Appending(inum, addrs, s) <==> Midway(inum, addrs, s)
    {
      assert Unfold(inum);
    }

    lemma AppendingFacts(inum: nat, addrs: seq<nat>, s: seq<byte>)
      requires Appending(inum, addrs, s)
      ensures NMETA <= |disk| && freeblock <= |disk| && |s| <= MAXFILE * BSIZE && DiskOk(disk)
    {
      AppendingIs(inum, addrs, s);
    }

    lemma StartAppending(inum: nat)
      requires Valid() && inum in files
      ensures InodeBlock(inum) < |disk| && 1 <= inum < freeinode <= LIMIT
      ensures var ino := ReadInode(disk, inum);
        ino.size == |files[inum]| && ino.kind < UINT && ino.link == ONELINK && Appending(inum, ino.addrs, files[inum])
    {
      InodeAreaWhen(inum);
      OneOfMany(disk, owners, freeinode, files, inum);
      AppendingIs(inum, ReadInode(disk, inum).addrs, files[inum]);
    }

    method Append(inum: nat, addrs: seq<nat>, off: nat, c: seq<byte>, ghost s: seq<byte>)
      returns (ok: bool, addrs': seq<nat>)
      requires Appending(inum, addrs, s) && off == |s| && off / BSIZE < MAXFILE && 0 < |c| <= BSIZE - off % BSIZE
      modifies this`disk, this`freeblock, this`owners
      ensures |disk| == |old(disk)| && (ok ==> MetaKept(old(disk), disk))
      ensures ok <==> old(freeblock) + Footprint(Blocks(off + |c|)) <= |disk| + Footprint(Blocks(off))
      ensures ok ==> Appending(inum, addrs', s + c)
      ensures ok ==> freeblock + Footprint(Blocks(off)) == old(freeblock) + Footprint(Blocks(off + |c|))
    {
      AppendingIs(inum, addrs, s);
      ok, addrs' := AppendChunk(inum, addrs, off / BSIZE, off % BSIZE, c, s);
      assert Blocks(off + |c|) == off / BSIZE + 1;
      if ok {
        OthersSound(old(disk), disk, old(owners), owners, freeinode, files, inum);
        AppendingIs(inum, addrs', s + c);
      }
    }

    /** One round of the loop of `iappend`, with i bytes of p done. */
    method Round(inum: nat, addrs: seq<nat>, off: nat, p: seq<byte>, i: nat, ghost s0: seq<byte>)
      returns (ok: bool, addrs': seq<nat>, i': nat)
      requires i < |p| && off == |s0| + i && Appending(inum, addrs, s0 + p[..i])
      modifies this`disk, this`freeblock, this`owners
      ensures |disk| == |old(disk)| && i < i' <= |p| && (ok ==> MetaKept(old(disk), disk))
      ensures !ok ==> !Fits(off, |s0| + |p|, old(|disk| - freeblock))
      ensures ok ==> off + i' - i <= MAXFILE * BSIZE && Appending(inum, addrs', s0 + p[..i'])
      ensures ok ==> freeblock + Footprint(Blocks(off)) == old(freeblock) + Footprint(Blocks(|s0| + i'))
    {
      var n1 := ChunkSize(off, |p| - i);
      i' := i + n1;
      if off / BSIZE >= MAXFILE {
        return false, addrs, i';
      }
      MoreBlocks(off, n1, |s0| + |p|);
      ok, addrs' := Append(inum, addrs, off, p[i..i'], s0 + p[..i]);
      AppendedTo(s0, p, i, i');
    }

    /** The loop of `iappend`. */
    method AppendAll(inum: nat, addrs0: seq<nat>, size: nat, p: seq<byte>, ghost s0: seq<byte>)
      returns (ok: bool, addrs: seq<nat>)
      requires Appending(inum, addrs0, s0) && size == |s0|
      modifies this`disk, this`freeblock, this`owners
      ensures |disk| == |old(disk)| && (ok ==> MetaKept(old(disk), disk))
      ensures ok <==> Fits(size, size + |p|, old(|disk| - freeblock))
      ensures ok ==> Appending(inum, addrs, s0 + p)
      ensures ok ==> freeblock + Footprint(Blocks(size)) == old(freeblock) + Footprint(Blocks(size + |p|))
      ensures ok ==> DiskOk(disk)
    {
      AppendingFacts(inum, addrs0, s0);
      assert s0 + p[..0] == s0;
      var i := 0;
      addrs := addrs0;
      while i < |p|
        invariant i <= |p| && |disk| == |old(disk)| && size + i <= MAXFILE * BSIZE && MetaKept(old(disk), disk)
        invariant Appending(inum, addrs, s0 + p[..i])
        invariant freeblock + Footprint(Blocks(size)) == old(freeblock) + Footprint(Blocks(size + i))
      {
        ok, addrs, i := Round(inum, addrs, size + i, p, i, s0);
        if !ok {
          return;
        }
      }
      assert p[..i] == p;
      AppendingFacts(inum, addrs, s0 + p);
      ok := true;
    }

    /** `iappend`: append the bytes p to file inum.  It succeeds if and only if the file stays within
        MAXFILE blocks and the image has the blocks that the file lacks. */
    method IAppend(inum: nat, p: seq<byte>) returns (ok: bool)
      requires Valid() && inum in files
      modifies this
      ensures ok <==> Fits(|old(files[inum])|, |old(files[inum])| + |p|, old(|disk| - freeblock))
      ensures ok ==> Valid() && files == old(files)[inum := old(files[inum]) + p]
      ensures ok ==> freeinode == old(freeinode) && |disk| == |old(disk)|
      ensures ok ==> ReadInode(disk, inum).kind == old(ReadInode(disk, inum)).kind
      ensures ok ==> ReadInode(disk, inum).link == old(ReadInode(disk, inum)).link
      ensures ok ==> ReadInode(disk, inum).size == |files[inum]|
      ensures ok ==> OtherInodesKept(old(disk), disk, inum)
      ensures ok ==>
        freeblock + Footprint(Blocks(|old(files[inum])|)) == old(freeblock) + Footprint(Blocks(|files[inum]|))
    {
      StartAppending(inum);
      var din := RInode(inum);
      var addrs;
      ok, addrs := AppendAll(inum, din.addrs, din.size, p, files[inum]);
      if ok {
        ghost var disk1 := disk;
        WriteBack(inum, din.(size := din.size + |p|, addrs := addrs), files[inum] + p);
        InodesKeptThen(old(disk), disk1, disk, inum);
      }
    }

    /** The `winode` at the end of `iappend`. */
    method WriteBack(inum: nat, din: Inode, ghost bytes: seq<byte>)
      requires Appending(inum, din.addrs, bytes) && 1 <= inum < freeinode && din.size == |bytes|
      requires DiskOk(disk) && din.kind < UINT && din.link == ONELINK
      requires forall i: nat {:trigger i in files} :: i in files <==> 1 <= i < freeinode
      modifies this`disk, this`files
      ensures Valid() && files == old(files)[inum := bytes] && |disk| == |old(disk)| && ReadInode(disk, inum) == din
      ensures OtherInodesKept(old(disk), disk, inum)
    {
      AppendingIs(inum, din.addrs, bytes);
      AddressesFit(disk, owners, freeblock, inum, din.addrs, Blocks(|bytes|));
      InodeWritten(disk, owners, freeblock, freeinode, files, inum, din, bytes);
      InodeAreaWhen(inum);
      var ok := WInode(inum, din);
      files := files[inum := bytes];
    }

    /** `balloc`: the bitmap marks the blocks before `freeblock` and no others.  The files of inodes
        below 208 are as before; afterwards an inode reads as it was written if and only if it is one
        of those. */
    method BAlloc() returns (ok: bool)
      requires Valid()
      modifies this`disk
      ensures DiskOk(disk) && |disk| == |old(disk)| && (ok <==> freeblock < BITS)
      ensures freeinode <= NINODES ==> Valid()
      ensures FilesSound(disk, owners, Min(freeinode, NINODES), files, {})
      ensures ok ==> forall b: nat :: b < BITS ==> (Marked(disk[BMAPSTART], b) <==> b < NMETA || b in owners)
      ensures ok ==> forall i: nat {:trigger ReadInode(disk, i)} :: 1 <= i < freeinode ==>
        (ReadInode(disk, i) == ReadInode(old(disk), i) <==> i < NINODES)
    {
      FewerSound(disk, owners, freeinode, files, Min(freeinode, NINODES));
      if freeblock >= BITS {
        return false;
      }
      var buf: Block := seq(BSIZE, _ => 0);
      for i := 0 to freeblock
        invariant |buf| == BSIZE && forall b: nat :: b < BITS ==> (Marked(buf, b) <==> b < i)
      {
        ghost var was := buf;
        buf := buf[i / 8 := OrBit(buf[i / 8], i % 8)];
        forall b: nat | b < BITS
          ensures Marked(buf, b) <==> b < i + 1
        {
          MarkOne(was, i, b);
        }
      }
      BitmapSpares(disk, owners, freeblock, freeinode, files, buf);
      forall i: nat | 1 <= i < freeinode
        ensures ReadInode(disk[BMAPSTART := buf], i) == ReadInode(disk, i) <==> i < NINODES
      {
        SurvivesBitmapWhen(disk, owners, freeinode, files, buf, freeblock, i);
      }
      disk := disk[BMAPSTART := buf];
      ok := true;
    }
  }
}
