/** mkfs: the initial file system. Blocks are handed out in increasing order and the
    bitmap is written last. The model follows the block numbers, the inodes and the
    bytes of every file; a run that would need a block or an inode beyond the image
    stops with false. */
module Mkfs {
  import opened Common
  import opened Blocks
  import opened Bitmap
  import opened Inodes
  import opened FsState
  import opened FileSystem

  const FSSIZE: nat := 2000
  const NINODES: nat := 200
  const NLOG: nat := MAXOPBLOCKS * 3
  const NBITMAP: nat := FSSIZE / BPB + 1
  const NINODEBLOCKS: nat := NINODES / IPB + 1
  const NMETA: nat := 2 + NLOG + NINODEBLOCKS + NBITMAP
  const ROOTINO: nat := 1

  /** The superblock of the image. */
  const SB: Super := Super(FSSIZE, NINODES, 2 + NLOG, 2 + NLOG + NINODEBLOCKS, NMETA)

  /** The image under construction d, seen with the bitmap it will get in the end (g). */
  ghost predicate Building(d: Disk, g: Disk, inodes: seq<Inode>, owner: Owner, freeblock: nat) {
    && |d| == FSSIZE && OnlyBitmap(SB, d, g)
    && SuperOk(SB, g) && InodesOk(SB, inodes) && Core(SB, g, inodes, owner)
    && FSSIZE >= freeblock >= NMETA
    && (forall b: nat :: b in owner <==> NMETA <= b < freeblock)
    && forall b: nat :: freeblock <= b < FSSIZE ==> d[b] == ZeroBlock()
  }

  // ----- the bitmap block -----

  /** The bitmap block that marks the first n blocks. */
  ghost predicate MarksBelow(buf: Block, n: nat) {
    forall b: nat :: b < BPB ==> (Bit(buf[b / 8], b % 8) <==> b < n)
  }

  lemma MarkNext(buf: Block, n: nat)
    requires MarksBelow(buf, n) && n < BPB
    ensures SetBit(buf[n / 8], n % 8) < 256
    ensures MarksBelow(buf[n / 8 := SetBit(buf[n / 8], n % 8)], n + 1)
  {
    ByteFits(buf[n / 8], n % 8);
    var buf' := buf[n / 8 := SetBit(buf[n / 8], n % 8)];
    forall b: nat | b < BPB ensures Bit(buf'[b / 8], b % 8) <==> b < n + 1 {
      SetBitAt(buf[n / 8], n % 8, b % 8);
      assert Bit(buf[b / 8], b % 8) <==> b < n;
    }
  }

  lemma {:induction false} ZeroBits(k: nat)
    ensures !Bit(0, k)
  {
    if k > 0 {
      ZeroBits(k - 1);
    }
  }

  lemma MarksNone()
    ensures MarksBelow(ZeroBlock(), 0)
  {
    forall b: nat | b < BPB ensures !Bit(ZeroBlock()[b / 8], b % 8) {
      ZeroBits(b % 8);
    }
  }

  /** balloc of mkfs: the bitmap block for the first used blocks. */
  method BallocBitmap(used: nat) returns (buf: Block)
    requires used < BPB
    ensures MarksBelow(buf, used)
  {
    hide Bit, SetBit;
    buf := ZeroBlock();
    MarksNone();
    var i := 0;
    while i < used
      invariant 0 <= i <= used && MarksBelow(buf, i)
    {
      MarkNext(buf, i);
      buf := buf[i / 8 := SetBit(buf[i / 8], i % 8)];
      i := i + 1;
    }
  }

  lemma UsedIsBelow(d: Disk, n: nat, b: nat)
    requires |d| == FSSIZE && MarksBelow(d[SB.bmapstart], n) && b < FSSIZE
    ensures SuperOk(SB, d) && (Used(Bm(SB), d, b) <==> b < n)
  {
    assert b / BPB == 0 && b % BPB == b;
  }

  /** With its final bitmap the image is the disk that the construction has been reasoning about. */
  lemma Finished(d: Disk, g: Disk, inodes: seq<Inode>, owner: Owner, freeblock: nat, e: Disk)
    requires Building(d, g, inodes, owner, freeblock) && |e| == FSSIZE
    requires OnlyBitmap(SB, d, e) && MarksBelow(e[SB.bmapstart], freeblock)
    ensures Core(SB, e, inodes, owner)
  {
    forall b: nat | b < FSSIZE ensures Used(Bm(SB), e, b) <==> b < SB.datastart || b in owner {
      UsedIsBelow(e, freeblock, b);
    }
    assert SuperOk(SB, e);
    SameSlots(SB, g, e, inodes, owner);
  }

  lemma SameSlots(sb: Super, g: Disk, e: Disk, inodes: seq<Inode>, owner: Owner)
    requires Core(sb, g, inodes, owner) && SuperOk(sb, e) && BitsOk(sb, e, owner)
    requires forall x: nat :: x < |g| && x >= sb.datastart ==> e[x] == g[x]
    ensures Core(sb, e, inodes, owner)
  {
    forall j: nat, t: nat | j < |inodes| && t < NSLOTS ensures Ref(e, inodes[j], t) == Ref(g, inodes[j], t) {
      IndirectOwned(sb, g, inodes, owner, j);
    }
    forall j: nat | j < |inodes| ensures Points(e, inodes[j], owner, j) {
      assert Points(g, inodes[j], owner, j);
    }
  }

  // ----- handing out blocks -----

  /** The next block goes to a direct slot or becomes the indirect block. */
  lemma TookSlot(d: Disk, g: Disk, inodes: seq<Inode>, owner: Owner, fb: nat, i: nat, s: nat)
    requires Building(d, g, inodes, owner, fb) && i < |inodes| && s <= NDIRECT && fb < FSSIZE && inodes[i].addrs[s] == 0
    ensures SuperOk(SB, g) && InodeOk(inodes[i])
    ensures var g', inodes', owner' := Allocated(SB, g, fb), inodes[i := WithAddr(inodes[i], s, fb)], owner[fb := Slot(i, s)];
            Building(d, g', inodes', owner', fb + 1) && Grown(g, inodes, owner, g', inodes', owner', i)
            && g'[fb] == ZeroBlock()
  {
    hide Core, Grown, MapStep;
    AttachDirect(SB, g, inodes, owner, i, s, fb);
    AttachedDirect(SB, g, inodes, owner, {}, i, s, fb);
    AllocatedAt(SB, g, fb);
    hide Allocated;
  }

  /** The next block goes to a slot of the indirect block. */
  lemma TookEntry(d: Disk, g: Disk, inodes: seq<Inode>, owner: Owner, fb: nat, i: nat, k: nat)
    requires Building(d, g, inodes, owner, fb) && i < |inodes| && k < NINDIRECT && fb < FSSIZE
    requires inodes[i].addrs[NDIRECT] != 0 && Ref(g, inodes[i], NDIRECT + 1 + k) == 0
    ensures SuperOk(SB, g) && NMETA <= inodes[i].addrs[NDIRECT] < fb && d[inodes[i].addrs[NDIRECT]] == g[inodes[i].addrs[NDIRECT]]
    ensures var x := inodes[i].addrs[NDIRECT];
            var g', owner' := WithEntry(Allocated(SB, g, fb), x, k, fb), owner[fb := Slot(i, NDIRECT + 1 + k)];
            && Building(WithEntry(d, x, k, fb), g', inodes, owner', fb + 1)
            && Grown(g, inodes, owner, g', inodes, owner', i)
            && Ref(g', inodes[i], NDIRECT + 1 + k) == fb
  {
    hide Core, Grown;
    var x := inodes[i].addrs[NDIRECT];
    IndirectOwned(SB, g, inodes, owner, i);
    AttachIndirect(SB, g, inodes, owner, i, NDIRECT + 1 + k, fb);
    EntryGrown(SB, g, inodes, owner, i, k, fb);
    AllocatedAt(SB, g, fb);
    WordOfSetWord(g[x], k, fb, k);
    hide Allocated, SetWord;
  }

  /** A chunk is written into a mapped block. */
  lemma ChunkPlaced(d: Disk, g: Disk, inodes: seq<Inode>, owner: Owner, fb: nat, i: nat, at: nat, chunk: seq<byte>)
    requires Building(d, g, inodes, owner, fb) && i < |inodes| && at < MAXBYTES && at % BSIZE + |chunk| <= BSIZE
    requires Ref(g, inodes[i], ByteSlot(at)) != 0
    ensures NMETA <= Ref(g, inodes[i], ByteSlot(at)) < fb && d[Ref(g, inodes[i], ByteSlot(at))] == g[Ref(g, inodes[i], ByteSlot(at))]
    ensures var x := Ref(g, inodes[i], ByteSlot(at));
            Building(d[x := Patched(d[x], at % BSIZE, chunk)], Stored(g, inodes[i], at, chunk), inodes, owner, fb)
  {
    hide Core;
    StoredCore(SB, g, inodes, owner, i, at, chunk);
  }

  /** Writing an inode block keeps everything else. */
  lemma InodeWritten(d: Disk, g: Disk, inodes: seq<Inode>, owner: Owner, fb: nat, i: nat, ino: Inode)
    requires Building(d, g, inodes, owner, fb) && i < NINODES && InodeOk(ino)
    ensures SuperOk(SB, d) && SuperOk(SB, g)
    ensures Building(FsState.Updated(SB, d, i, ino), FsState.Updated(SB, g, i, ino), inodes, owner, fb)
  {
    hide Core, PutInode;
    UpdatedFrame(SB, g, inodes, owner, i, ino);
    IBlockInRange(SB, d, i);
  }

  /** No block is mapped at or past byte position end, but the byte before it is; there is no indirect
      block without need. */
  ghost predicate Tight(g: Disk, ino: Inode, end: nat)
    requires InodeOk(ino)
  {
    && (forall bn: nat :: bn < MAXFILE && bn * BSIZE >= end ==> Ref(g, ino, SlotOf(bn)) == 0)
    && (end <= NDIRECT * BSIZE ==> ino.addrs[NDIRECT] == 0)
    && (0 < end <= MAXBYTES ==> Ref(g, ino, ByteSlot(end - 1)) != 0)
  }

  lemma TightSame(g: Disk, ino: Inode, g': Disk, ino': Inode, end: nat)
    requires InodeOk(ino) && InodeOk(ino') && ino.addrs == ino'.addrs && Tight(g, ino, end)
    requires forall s: nat :: s < NSLOTS ==> Ref(g', ino', s) == Ref(g, ino, s)
    ensures Tight(g', ino', end)
  {
    hide Ref;
  }

  /** The blocks that a file of the given length takes: its data blocks, and the indirect block if they
      are more than the inode can name. */
  function BlocksOf(len: nat): nat {
    (len + BSIZE - 1) / BSIZE + if len > NDIRECT * BSIZE then 1 else 0
  }

  /** A file of the given size can take len more bytes when blocks from fb on are left. */
  predicate HasSpace(fb: nat, size: nat, len: nat) {
    size + len <= MAXBYTES && fb + BlocksOf(size + len) <= FSSIZE + BlocksOf(size)
  }

  lemma MoreBlocks(a: nat, b: nat)
    requires a <= b
    ensures BlocksOf(a) <= BlocksOf(b)
  {
  }

  /** The blocks that iappend assigns for block fbn of a file. */
  function Needed(g: Disk, ino: Inode, fbn: nat): nat
    requires InodeOk(ino) && fbn < MAXFILE
  {
    (if Ref(g, ino, SlotOf(fbn)) == 0 then 1 else 0) + if fbn >= NDIRECT && ino.addrs[NDIRECT] == 0 then 1 else 0
  }

  /** Going on at the end of a file takes the difference in blocks. */
  lemma NeededIs(g: Disk, ino: Inode, off: nat, m: nat)
    requires InodeOk(ino) && Tight(g, ino, off) && off / BSIZE < MAXFILE && 0 < m <= BSIZE - off % BSIZE
    ensures BlocksOf(off + m) == BlocksOf(off) + Needed(g, ino, off / BSIZE)
  {
    if off % BSIZE == 0 {
      assert Ref(g, ino, SlotOf(off / BSIZE)) == 0;
    } else {
      assert ByteSlot(off - 1) == SlotOf(off / BSIZE);
    }
  }

  /** Every file slot except s reads as before. */
  ghost predicate OtherSlots(g: Disk, ino: Inode, g': Disk, ino': Inode, s: nat)
    requires InodeOk(ino) && InodeOk(ino')
  {
    forall t: nat :: t < NSLOTS && t != s && t != NDIRECT ==> Ref(g', ino', t) == Ref(g, ino, t)
  }

  lemma SlotOthers(g: Disk, ino: Inode, fb: nat, s: nat)
    requires SuperOk(SB, g) && InodeOk(ino) && s <= NDIRECT && ino.addrs[s] == 0 && NMETA <= fb < FSSIZE
    requires ino.addrs[NDIRECT] != 0 ==> NMETA <= ino.addrs[NDIRECT] < fb
    ensures OtherSlots(g, ino, Allocated(SB, g, fb), WithAddr(ino, s, fb), s)
  {
    AllocatedAt(SB, g, fb);
    forall t: nat | t < NSLOTS && t != s && t != NDIRECT
      ensures Ref(Allocated(SB, g, fb), WithAddr(ino, s, fb), t) == Ref(g, ino, t)
    {
      if t > NDIRECT {
        ZeroWord(t - NDIRECT - 1);
      }
    }
  }

  lemma EntryOthers(g: Disk, ino: Inode, fb: nat, k: nat)
    requires SuperOk(SB, g) && InodeOk(ino) && NMETA <= ino.addrs[NDIRECT] < fb < FSSIZE && k < NINDIRECT
    ensures OtherSlots(g, ino, WithEntry(Allocated(SB, g, fb), ino.addrs[NDIRECT], k, fb), ino, NDIRECT + 1 + k)
  {
    AllocatedAt(SB, g, fb);
    var x := ino.addrs[NDIRECT];
    forall t: nat | t < NSLOTS && t != NDIRECT + 1 + k && t != NDIRECT
      ensures Ref(WithEntry(Allocated(SB, g, fb), x, k, fb), ino, t) == Ref(g, ino, t)
    {
      if t > NDIRECT {
        WordOfSetWord(g[x], k, fb, t - NDIRECT - 1);
      }
    }
  }

  class Image {
    var disk: Disk
    var freeblock: nat
    var freeinode: nat
    // the image with its final bitmap, the inodes written so far, and who owns which block
    ghost var g: Disk
    ghost var inodes: seq<Inode>
    ghost var owner: Owner

    ghost predicate Making()
      reads this
    {
      Building(disk, g, inodes, owner, freeblock)
    }

    /** Assign the next block to slot s of din, the in-memory copy of inode i. */
    method TakeSlot(i: nat, din: Inode, s: nat) returns (fits: bool, din': Inode)
      requires Making() && i < NINODES && inodes[i] == din && s <= NDIRECT && din.addrs[s] == 0
      modifies this`freeblock, this`g, this`inodes, this`owner
      ensures fits <==> old(freeblock) < FSSIZE
      ensures fits ==> Making() && inodes == old(inodes)[i := din'] && din' == WithAddr(din, s, old(freeblock))
      ensures fits ==> Grown(old(g), old(inodes), old(owner), g, inodes, owner, i) && OtherSlots(old(g), din, g, din', s)
      ensures fits && s == NDIRECT ==> old(freeblock) < |g| && g[old(freeblock)] == ZeroBlock()
      ensures freeblock == old(freeblock) + if fits then 1 else 0
    {
      hide Core, Grown, OtherSlots;
      if freeblock >= FSSIZE {
        return false, din;
      }
      TookSlot(disk, g, inodes, owner, freeblock, i, s);
      IndirectOwned(SB, g, inodes, owner, i);
      SlotOthers(g, din, freeblock, s);
      din' := WithAddr(din, s, freeblock);
      g := Allocated(SB, g, freeblock);
      inodes := inodes[i := din'];
      owner := owner[freeblock := Slot(i, s)];
      freeblock := freeblock + 1;
      fits := true;
    }

    /** Assign the next block to entry k of the indirect block of inode i and write that block back. */
    method TakeEntry(i: nat, din: Inode, k: nat) returns (fits: bool)
      requires Making() && i < NINODES && inodes[i] == din && k < NINDIRECT && din.addrs[NDIRECT] != 0
      requires Ref(g, din, NDIRECT + 1 + k) == 0
      modifies this`disk, this`freeblock, this`g, this`owner
      ensures fits <==> old(freeblock) < FSSIZE
      ensures fits ==> Making() && Ref(g, din, NDIRECT + 1 + k) == old(freeblock)
      ensures fits ==> Grown(old(g), inodes, old(owner), g, inodes, owner, i) && OtherSlots(old(g), din, g, din, NDIRECT + 1 + k)
      ensures fits ==> forall b: nat :: b < SB.bmapstart ==> disk[b] == old(disk)[b]
      ensures freeblock == old(freeblock) + if fits then 1 else 0
    {
      hide Core, Grown, OtherSlots;
      if freeblock >= FSSIZE {
        return false;
      }
      TookEntry(disk, g, inodes, owner, freeblock, i, k);
      EntryOthers(g, din, freeblock, k);
      var x := din.addrs[NDIRECT];
      disk := disk[x := SetWord(disk[x], k, freeblock)];
      g := WithEntry(Allocated(SB, g, freeblock), x, k, freeblock);
      owner := owner[freeblock := Slot(i, NDIRECT + 1 + k)];
      freeblock := freeblock + 1;
      return true;
    }

    /** The block-mapping half of iappend's loop. */
    method MapBlock(i: nat, din: Inode, fbn: nat) returns (fits: bool, din': Inode, x: nat)
      requires Making() && i < NINODES && inodes[i] == din && fbn < MAXFILE
      modifies this`disk, this`freeblock, this`g, this`inodes, this`owner
      ensures fits ==> Making() && InodeOk(din') && inodes == old(inodes)[i := din'] && din' == din.(addrs := din'.addrs)
      ensures fits ==> Grown(old(g), old(inodes), old(owner), g, inodes, owner, i) && OtherSlots(old(g), din, g, din', SlotOf(fbn))
      ensures fits ==> x == Ref(g, din', SlotOf(fbn)) != 0
      ensures fits ==> forall b: nat :: b < SB.bmapstart ==> disk[b] == old(disk)[b]
      ensures fits ==> freeblock == old(freeblock) + old(Needed(g, din, fbn)) && (fbn < NDIRECT ==> din'.addrs[NDIRECT] == din.addrs[NDIRECT])
      ensures fits <==> old(freeblock) + old(Needed(g, din, fbn)) <= FSSIZE
    {
      hide Core, Grown, OtherSlots;
      SameSlot(g, inodes, owner, i);
      din' := din;
      if fbn < NDIRECT {
        if din.addrs[fbn] == 0 {
          fits, din' := TakeSlot(i, din, fbn);
          return fits, din', if fits then din'.addrs[fbn] else 0;
        }
        return true, din, din.addrs[fbn];
      }
      fits, din', x := MapEntry(i, din, fbn - NDIRECT);
    }

    /** The same for a block named by the indirect block. */
    method MapEntry(i: nat, din: Inode, k: nat) returns (fits: bool, din': Inode, x: nat)
      requires Making() && i < NINODES && inodes[i] == din && k < NINDIRECT
      modifies this`disk, this`freeblock, this`g, this`inodes, this`owner
      ensures fits ==> Making() && InodeOk(din') && inodes == old(inodes)[i := din'] && din' == din.(addrs := din'.addrs)
      ensures fits ==> Grown(old(g), old(inodes), old(owner), g, inodes, owner, i) && OtherSlots(old(g), din, g, din', NDIRECT + 1 + k)
      ensures fits ==> x == Ref(g, din', NDIRECT + 1 + k) != 0
      ensures fits ==> forall b: nat :: b < SB.bmapstart ==> disk[b] == old(disk)[b]
      ensures fits ==> freeblock == old(freeblock) + old(Needed(g, din, NDIRECT + k))
      ensures fits <==> old(freeblock) + old(Needed(g, din, NDIRECT + k)) <= FSSIZE
    {
      hide Core, Grown, OtherSlots;
      ghost var g0, n0, o0 := g, inodes, owner;
      SameSlot(g, inodes, owner, i);
      din' := din;
      if din.addrs[NDIRECT] == 0 {
        fits, din' := TakeSlot(i, din, NDIRECT);
        if !fits {
          return fits, din, 0;
        }
      }
      ghost var g1, n1, o1 := g, inodes, owner;
      IndirectOwned(SB, g, inodes, owner, i);
      x := Word(disk[din'.addrs[NDIRECT]], k);
      if x == 0 {
        fits := TakeEntry(i, din', k);
        if !fits {
          return false, din, 0;
        }
        GrownTwice(g0, n0, o0, g1, n1, o1, g, inodes, owner, i);
        OthersTwice(g0, din, g1, din', g, NDIRECT + 1 + k);
        x := Word(disk[din'.addrs[NDIRECT]], k);
        IndirectOwned(SB, g, inodes, owner, i);
        assert disk[din'.addrs[NDIRECT]] == g[din'.addrs[NDIRECT]];
      } else {
        SameSlot(g, inodes, owner, i);
        OthersTwice(g0, din, g1, din', g, NDIRECT + 1 + k);
      }
      fits := true;
    }

    /** The state between two operations of mkfs. */
    ghost predicate Valid()
      reads this
    {
      && Making() && FilesOk(g, inodes, NINODES)
      && SuperOk(SB, disk) && SyncedBut(SB, disk, inodes, NINODES)
      && 1 <= freeinode <= NINODES
      && (forall j: nat :: j < freeinode ==> (inodes[j].kind != 0 <==> j != 0))
      && (forall j: nat :: freeinode <= j < NINODES ==> inodes[j] == FREE_INODE)
      && forall j: nat :: j < NINODES ==> Tight(g, inodes[j], inodes[j].size)
    }

    /** One round of iappend's loop after the block is mapped: copy the chunk into it. */
    method PutChunk(i: nat, din: Inode, x: nat, at: nat, chunk: seq<byte>, ghost g0: Disk, ghost n0: seq<Inode>, ghost o0: Owner,
                    ghost off: nat, ghost bytes: seq<byte>)
      requires Making() && i < NINODES && inodes[i] == din && at < MAXBYTES && at % BSIZE + |chunk| <= BSIZE
      requires x == Ref(g, din, ByteSlot(at)) != 0 && InodesOk(SB, n0) && at == off + |bytes|
      requires OnlyFile(g0, n0, o0, g, inodes, owner, i) && BytesWritten(g0, n0[i], g, din, off, bytes)
      modifies this`disk, this`g
      ensures Making() && OnlyFile(g0, n0, o0, g, inodes, owner, i) && BytesWritten(g0, n0[i], g, din, off, bytes + chunk)
      ensures forall s: nat :: s < NSLOTS ==> Ref(g, din, s) == Ref(old(g), din, s)
      ensures forall b: nat :: b < SB.bmapstart ==> disk[b] == old(disk)[b]
    {
      hide Core, OnlyFile, BytesWritten, Ref;
      ChunkPlaced(disk, g, inodes, owner, freeblock, i, at, chunk);
      StoredOnlyFile(SB, g, inodes, owner, i, at, chunk);
      ghost var g1 := g;
      disk := disk[x := Patched(disk[x], at % BSIZE, chunk)];
      g := Stored(g, din, at, chunk);
      WrittenThenStored(SB, g0, n0[i], g1, inodes, owner, i, off, bytes, at, chunk, g);
      OnlyFileTwice(g0, n0, o0, g1, inodes, owner, g, inodes, owner, i);
      StoredSlots(g1, inodes, owner, i, at, chunk);
    }

    /** The loop of iappend. */
    method AppendLoop(i: nat, din0: Inode, bytes: seq<byte>) returns (fits: bool, din: Inode)
      requires Making() && i < NINODES && inodes[i] == din0 && din0.size <= MAXBYTES && Tight(g, din0, din0.size)
      modifies this`disk, this`freeblock, this`g, this`inodes, this`owner
      ensures fits ==> Making() && InodeOk(din) && inodes == old(inodes)[i := din] && din == din0.(addrs := din.addrs)
      ensures fits ==> OnlyFile(old(g), old(inodes), old(owner), g, inodes, owner, i)
      ensures fits ==> BytesWritten(old(g), din0, g, din, din0.size, bytes) && Tight(g, din, din0.size + |bytes|)
      ensures fits ==> forall b: nat :: b < SB.bmapstart ==> disk[b] == old(disk)[b]
      ensures fits ==> freeblock + BlocksOf(din0.size) == old(freeblock) + BlocksOf(din0.size + |bytes|)
      ensures fits <==> HasSpace(old(freeblock), din0.size, |bytes|)
    {
      hide Core, OnlyFile, BytesWritten, Grown, Tight, OtherSlots, Ref, BlocksOf, Needed;
      ghost var d0, g0, n0, o0 := disk, g, inodes, owner;
      NothingWritten(g0, din0, din0.size);
      OnlyFileRefl(g0, n0, o0, i);
      din := din0;
      var off := din.size;
      var done := 0;
      while done < |bytes|
        invariant 0 <= done <= |bytes| && off == din0.size + done <= MAXBYTES
        invariant freeblock + BlocksOf(din0.size) == old(freeblock) + BlocksOf(off)
        invariant Making() && InodeOk(din) && inodes == n0[i := din] && din == din0.(addrs := din.addrs)
        invariant OnlyFile(g0, n0, o0, g, inodes, owner, i)
        invariant BytesWritten(g0, din0, g, din, din0.size, bytes[..done]) && Tight(g, din, off)
        invariant forall b: nat :: b < SB.bmapstart ==> disk[b] == d0[b]
      {
        var fbn := off / BSIZE;
        if fbn >= MAXFILE {
          return false, din;
        }
        var m := if |bytes| - done < (fbn + 1) * BSIZE - off then |bytes| - done else (fbn + 1) * BSIZE - off;
        NeededIs(g, din, off, m);
        MoreBlocks(off + m, din0.size + |bytes|);
        ghost var g1, n1, o1, din1 := g, inodes, owner, din;
        var x;
        fits, din, x := MapBlock(i, din, fbn);
        if !fits {
          return;
        }
        GrownIsOnlyFile(g1, n1, o1, g, inodes, owner, i);
        OnlyFileTwice(g0, n0, o0, g1, n1, o1, g, inodes, owner, i);
        WrittenThenGrown(SB, g0, din0, g1, n1, o1, g, inodes, owner, i, din0.size, bytes[..done]);
        ghost var g2 := g;
        PutChunk(i, din, x, off, bytes[done..done + m], g0, n0, o0, din0.size, bytes[..done]);
        assert bytes[..done] + bytes[done..done + m] == bytes[..done + m];
        TightNext(g1, din1, g2, g, din, off, m);
        done := done + m;
        off := off + m;
      }
      assert bytes[..done] == bytes;
      fits := true;
    }

    /** iappend: the bytes go to the end of the file. */
    method IAppend(i: nat, bytes: seq<byte>) returns (fits: bool)
      requires Valid() && 1 <= i < freeinode
      modifies this`disk, this`freeblock, this`g, this`inodes, this`owner
      ensures fits ==> Valid() && inodes[i].kind == old(inodes)[i].kind
      ensures fits ==> old(inodes)[i].size <= MAXBYTES && inodes[i].size == old(inodes)[i].size + |bytes|
      ensures fits ==> Bytes(g, inodes[i]) == Bytes(old(g), old(inodes)[i]) + bytes
      ensures fits ==> OthersSame(old(g), old(inodes), g, inodes, i)
      ensures fits ==> freeblock + BlocksOf(old(inodes)[i].size) == old(freeblock) + BlocksOf(inodes[i].size)
      ensures fits <==> HasSpace(old(freeblock), old(inodes)[i].size, |bytes|)
    {
      hide Core, OnlyFile, BytesWritten, Tight, FileOk, OthersSame, Bytes, GetInode;
      ghost var d0, g0, n0, o0 := disk, g, inodes, owner;
      AllSame(g0, n0, NINODES, i);
      FileSize(g0, n0[i]);
      BytesLength(g0, n0[i]);
      IBlockInRange(SB, disk, i);
      assert SyncedAt(SB, disk, inodes, i);
      assert Tight(g0, n0[i], n0[i].size);
      var din := GetInode(disk[IBlock(SB, i)], i % IPB);
      var off := din.size;
      fits, din := AppendLoop(i, din, bytes);
      if !fits {
        return;
      }
      WriteBack(i, din, off + |bytes|, d0, g0, n0, o0, bytes);
      AppendIsSplice(Bytes(g0, n0[i]), bytes);
    }

    /** The end of iappend: set the size and write the inode back. */
    method WriteBack(i: nat, din: Inode, end: nat, ghost d0: Disk, ghost g0: Disk, ghost n0: seq<Inode>, ghost o0: Owner, ghost bytes: seq<byte>)
      requires Making() && 1 <= i < freeinode <= NINODES && inodes[i] == din && InodeOk(din)
      requires Core(SB, g0, n0, o0) && InodesOk(SB, n0) && inodes == n0[i := din] && din == n0[i].(addrs := din.addrs)
      requires FilesOk(g0, n0, NINODES) && SuperOk(SB, d0) && SuperOk(SB, disk) && SyncedBut(SB, d0, n0, NINODES)
      requires (forall j: nat :: j < freeinode ==> (n0[j].kind != 0 <==> j != 0))
      requires (forall j: nat :: freeinode <= j < NINODES ==> n0[j] == FREE_INODE)
      requires (forall j: nat :: j < NINODES ==> Tight(g0, n0[j], n0[j].size))
      requires OnlyFile(g0, n0, o0, g, inodes, owner, i) && end == n0[i].size + |bytes|
      requires BytesWritten(g0, n0[i], g, din, n0[i].size, bytes) && Tight(g, din, end)
      requires forall b: nat :: b < SB.bmapstart ==> disk[b] == d0[b]
      modifies this`disk, this`g, this`inodes
      ensures Valid() && inodes[i].kind == n0[i].kind && inodes[i].size == end && n0[i].size <= MAXBYTES
      ensures Bytes(g, inodes[i]) == Splice(Bytes(g0, n0[i]), n0[i].size, bytes)
      ensures OthersSame(g0, n0, g, inodes, i)
    {
      hide Core, OnlyFile, BytesWritten, FileOk, OthersSame, SyncedAt, Bytes, Tight;
      AllSame(g0, n0, NINODES, i);
      FileSize(g0, n0[i]);
      BytesLength(g0, n0[i]);
      WrittenFits(g0, n0[i], g, din, n0[i].size, bytes);
      var ino := din.(size := end);
      ghost var d1, g1, n1 := disk, g, inodes;
      AfterWrite(SB, g0, n0, o0, g1, n1, owner, i, n0[i].size, bytes, ino);
      inodes := inodes[i := ino];
      InodeWritten(disk, g1, inodes, owner, freeblock, i, ino);
      SyncedFrame(SB, d0, n0, d1, inodes, i);
      NowSynced(SB, d1, inodes, i);
      IBlockInRange(SB, disk, i);
      UpdatedFrame(SB, g1, inodes, owner, i, ino);
      disk := disk[IBlock(SB, i) := PutInode(disk[IBlock(SB, i)], i % IPB, ino)];
      g := FsState.Updated(SB, g, i, ino);
      AfterUpdate(SB, g0, n0, g1, inodes, owner, g, i);
      forall j: nat | j < NINODES ensures Tight(g, inodes[j], inodes[j].size) {
        StillTight(g0, n0, o0, g1, n1, inodes, owner, g, i, j, end);
      }
    }

    /** An empty image: all blocks zero. */
    constructor ()
      ensures Valid() && freeinode == 1 && freeblock == NMETA
    {
      var d: Disk := seq(FSSIZE, _ => ZeroBlock());
      disk := d;
      freeblock := NMETA;
      freeinode := 1;
      g := d[SB.bmapstart := Marks(NMETA)];
      inodes := seq(NINODES, _ => FREE_INODE);
      owner := map[];
      new;
      Blank(disk, g, inodes);
    }

    /** ialloc of mkfs. */
    method IAlloc(kind: short) returns (fits: bool, inum: nat)
      requires Valid() && kind != 0
      modifies this`disk, this`freeinode, this`g, this`inodes
      ensures fits <==> old(freeinode) < NINODES
      ensures fits ==> Valid() && inum == old(freeinode) && freeinode == old(freeinode) + 1
      ensures fits ==> inodes == old(inodes)[inum := FREE_INODE.(kind := kind, nlink := 1)]
      ensures fits ==> OthersSame(old(g), old(inodes), g, inodes, inum)
    {
      hide Core, FileOk, OthersSame, SyncedAt, Tight;
      if freeinode >= NINODES {
        return false, 0;
      }
      inum := freeinode;
      freeinode := freeinode + 1;
      var din := FREE_INODE.(kind := kind, nlink := 1);
      ghost var d0, g0, n0 := disk, g, inodes;
      assert n0[inum] == FREE_INODE;
      AllSame(g0, n0, NINODES, inum);
      assert Tight(g0, n0[inum], n0[inum].size);
      CoreSameAddrs(SB, g, inodes, owner, inum, din);
      inodes := inodes[inum := din];
      KindSet(SB, g0, g0, n0, n0, inodes, inum);
      InodeWritten(disk, g, inodes, owner, freeblock, inum, din);
      SyncedFrame(SB, d0, n0, d0, inodes, inum);
      NowSynced(SB, d0, inodes, inum);
      UpdatedFrame(SB, g, inodes, owner, inum, din);
      IBlockInRange(SB, disk, inum);
      disk := disk[IBlock(SB, inum) := PutInode(disk[IBlock(SB, inum)], inum % IPB, din)];
      g := FsState.Updated(SB, g, inum, din);
      AfterUpdate(SB, g0, n0, g0, inodes, owner, g, inum);
      forall j: nat | j < NINODES ensures Tight(g, inodes[j], inodes[j].size) {
        assert Tight(g0, n0[j], n0[j].size);
        TightFrame(g0, inodes, owner, g, n0[j], j);
      }
      fits := true;
    }

    /** Append a host file, read in pieces of BSIZE bytes. */
    method AppendFile(i: nat, contents: seq<byte>) returns (fits: bool)
      requires Valid() && 1 <= i < freeinode && inodes[i].size == 0
      modifies this`disk, this`freeblock, this`g, this`inodes, this`owner
      ensures fits ==> Valid() && inodes[i].kind == old(inodes)[i].kind && inodes[i].size == |contents| <= MAXBYTES
      ensures fits ==> Bytes(g, inodes[i]) == contents && OthersSame(old(g), old(inodes), g, inodes, i)
      ensures fits ==> freeblock == old(freeblock) + BlocksOf(|contents|)
      ensures fits <==> HasSpace(old(freeblock), 0, |contents|)
    {
      hide Core, FileOk, OthersSame, SyncedAt, Tight, Bytes;
      ghost var g0, n0 := g, inodes;
      AllSame(g0, n0, NINODES, i);
      FileSize(g, inodes[i]);
      BytesLength(g, inodes[i]);
      var done := 0;
      while done < |contents|
        invariant 0 <= done <= |contents|
        invariant Valid() && inodes[i].kind == n0[i].kind && inodes[i].size == done <= MAXBYTES
        invariant freeblock == old(freeblock) + BlocksOf(done)
        invariant Bytes(g, inodes[i]) == contents[..done] && OthersSame(g0, n0, g, inodes, i)
      {
        var cc := if |contents| - done < BSIZE then |contents| - done else BSIZE;
        ghost var g1, n1 := g, inodes;
        MoreBlocks(done + cc, |contents|);
        fits := IAppend(i, contents[done..done + cc]);
        if !fits {
          return;
        }
        SameTwice(g0, n0, g1, n1, g, inodes, i);
        AllSame(g, inodes, NINODES, i);
        FileSize(g, inodes[i]);
        assert contents[..done] + contents[done..done + cc] == contents[..done + cc];
        done := done + cc;
      }
      assert contents[..done] == contents;
      fits := true;
    }

    /** One file of the command line: its inode, its directory entry, its contents. */
    method AddFile(f: File) returns (fits: bool)
      requires Valid() && 1 < freeinode && |f.name| == DIRSIZ
      modifies this`disk, this`freeblock, this`freeinode, this`g, this`inodes, this`owner
      ensures fits ==> Valid() && freeinode == old(freeinode) + 1 && inodes[ROOTINO].kind == old(inodes)[ROOTINO].kind
      ensures fits ==> FileIs(g, inodes, old(freeinode), f.contents)
      ensures fits ==> old(inodes)[ROOTINO].size <= MAXBYTES
      ensures fits ==> FileIs(g, inodes, ROOTINO, Bytes(old(g), old(inodes)[ROOTINO]) + Dirent(old(freeinode), f.name))
      ensures fits ==> forall j: nat :: 1 < j < old(freeinode) ==> SameFile(old(g), old(inodes), g, inodes, j)
      ensures fits ==> freeblock + BlocksOf(old(inodes)[ROOTINO].size)
                       == old(freeblock) + BlocksOf(old(inodes)[ROOTINO].size + 2 + DIRSIZ) + BlocksOf(|f.contents|)
      ensures fits <==> && old(freeinode) < NINODES && old(inodes)[ROOTINO].size + 2 + DIRSIZ <= MAXBYTES && |f.contents| <= MAXBYTES
                        && old(freeblock) + BlocksOf(old(inodes)[ROOTINO].size + 2 + DIRSIZ) + BlocksOf(|f.contents|)
                           <= FSSIZE + BlocksOf(old(inodes)[ROOTINO].size)
    {
      hide Core, FileOk, SyncedAt, Tight, Bytes;
      ghost var g0, n0 := g, inodes;
      AllSame(g, inodes, NINODES, ROOTINO);
      FileSize(g, inodes[ROOTINO]);
      var inum;
      fits, inum := IAlloc(T_FILE);
      if !fits { return; }
      ghost var g1, n1 := g, inodes;
      assert SameFile(g0, n0, g1, n1, ROOTINO);
      fits := IAppend(ROOTINO, Dirent(inum, f.name));
      if !fits { return; }
      ghost var g2, n2 := g, inodes;
      assert SameFile(g1, n1, g2, n2, inum);
      fits := AppendFile(inum, f.contents);
      if !fits { return; }
      assert SameFile(g2, n2, g, inodes, ROOTINO);
      AllSame(g, inodes, NINODES, ROOTINO);
      FileSize(g, inodes[ROOTINO]);
      forall j: nat | 1 < j < old(freeinode) ensures SameFile(g0, n0, g, inodes, j) {
        assert SameFile(g0, n0, g1, n1, j) && SameFile(g1, n1, g2, n2, j) && SameFile(g2, n2, g, inodes, j);
      }
    }

    /** Round the size of the root directory up, one block further if its last block is full. */
    method RoundRoot()
      requires Valid() && 1 < freeinode && inodes[ROOTINO].size < MAXBYTES
      modifies this`disk, this`g, this`inodes
      ensures Making() && SuperOk(SB, disk) && SyncedBut(SB, disk, inodes, NINODES)
      ensures inodes == old(inodes)[ROOTINO := old(inodes)[ROOTINO].(size := (old(inodes)[ROOTINO].size / BSIZE + 1) * BSIZE)]
      ensures forall b: nat :: b < FSSIZE && b >= SB.bmapstart ==> g[b] == old(g)[b]
    {
      hide Core, SyncedAt, GetInode, PutInode, FileOk;
      ghost var d0, n0 := disk, inodes;
      assert SyncedAt(SB, disk, inodes, ROOTINO);
      ReadBack(SB, disk, inodes, ROOTINO);
      var din := GetInode(disk[IBlock(SB, ROOTINO)], ROOTINO % IPB);
      din := din.(size := (din.size / BSIZE + 1) * BSIZE);
      CoreSameAddrs(SB, g, inodes, owner, ROOTINO, din);
      inodes := inodes[ROOTINO := din];
      InodeWritten(disk, g, inodes, owner, freeblock, ROOTINO, din);
      UpdatedFrame(SB, g, inodes, owner, ROOTINO, din);
      SyncedFrame(SB, d0, n0, d0, inodes, ROOTINO);
      NowSynced(SB, d0, inodes, ROOTINO);
      disk := disk[IBlock(SB, ROOTINO) := PutInode(disk[IBlock(SB, ROOTINO)], ROOTINO % IPB, din)];
      g := FsState.Updated(SB, g, ROOTINO, din);
    }

    /** Write the bitmap. */
    method WriteBitmap()
      requires Making() && SuperOk(SB, disk) && SyncedBut(SB, disk, inodes, NINODES)
      modifies this`disk
      ensures SuperOk(SB, disk) && Core(SB, disk, inodes, owner) && SyncedBut(SB, disk, inodes, NINODES)
      ensures forall b: nat :: b < FSSIZE && b >= SB.datastart ==> disk[b] == g[b]
    {
      hide Core, SyncedAt;
      ghost var d := disk;
      var buf := BallocBitmap(freeblock);
      disk := disk[SB.bmapstart := buf];
      Finished(d, g, inodes, owner, freeblock, disk);
      SyncedFrame(SB, d, inodes, disk, inodes, NINODES);
    }

    /** The root directory with its own two entries. */
    method MakeRoot() returns (fits: bool)
      requires Valid() && freeinode == ROOTINO
      modifies this`disk, this`freeblock, this`freeinode, this`g, this`inodes, this`owner
      ensures fits ==> Valid() && freeinode == 2 && inodes[ROOTINO].kind == T_DIR
      ensures fits ==> FileIs(g, inodes, ROOTINO, RootDir([]))
      ensures fits ==> freeblock == old(freeblock) + 1
      ensures fits <==> old(freeblock) < FSSIZE
    {
      hide Core, FileOk, SyncedAt, Tight, Bytes, Dirent;
      DirentLength(ROOTINO, DOT);
      DirentLength(ROOTINO, DOTDOT);
      var inum;
      fits, inum := IAlloc(T_DIR);
      if !fits { return; }
      AllSame(g, inodes, NINODES, ROOTINO);
      BytesLength(g, inodes[ROOTINO]);
      fits := IAppend(ROOTINO, Dirent(ROOTINO, DOT));
      if !fits { return; }
      AllSame(g, inodes, NINODES, ROOTINO);
      FileSize(g, inodes[ROOTINO]);
      fits := IAppend(ROOTINO, Dirent(ROOTINO, DOTDOT));
      if !fits { return; }
      AllSame(g, inodes, NINODES, ROOTINO);
      FileSize(g, inodes[ROOTINO]);
    }

    /** The root directory and every file of the command line. */
    method Populate(files: seq<File>) returns (fits: bool)
      requires Valid() && freeinode == ROOTINO && freeblock == NMETA && Named(files)
      modifies this`disk, this`freeblock, this`freeinode, this`g, this`inodes, this`owner
      ensures fits ==> Valid() && freeinode == 2 + |files| && inodes[ROOTINO].kind == T_DIR
      ensures fits ==> FileIs(g, inodes, ROOTINO, RootDir(files)) && Hold(g, inodes, files)
      ensures fits <==> Fits(files)
    {
      hide Core, FileOk, SyncedAt, Tight, Bytes, Dirent, SameFile, BlocksOf, SumOf, Fits, RootDir, FilesOk, SyncedBut, SuperOk, OnlyBitmap;
      OneBlock();
      fits := MakeRoot();
      var i := 0;
      while fits && i < |files|
        invariant 0 <= i <= |files|
        invariant fits ==> Valid() && freeinode == 2 + i && inodes[ROOTINO].kind == T_DIR
        invariant fits ==> FileIs(g, inodes, ROOTINO, RootDir(files[..i])) && Hold(g, inodes, files[..i])
        invariant fits ==> freeblock == NMETA + BlocksOf(16 * (2 + i)) + SumOf(files[..i])
        invariant fits ==> forall k :: 0 <= k < i ==> |files[k].contents| <= MAXBYTES
        invariant !fits ==> !Fits(files)
      {
        ghost var g0, n0 := g, inodes;
        RootLength(files[..i]);
        BytesLength(g, inodes[ROOTINO]);
        SumNext(files, i);
        RootNext(files, i);
        fits := AddFile(files[i]);
        if fits {
          HoldNext(g0, n0, g, inodes, files, i);
        }
        i := i + 1;
      }
      assert files[..|files|] == files;
      AllFit(files, fits);
    }

    /** main, after the superblock: build the image for the given files. What the kernel relies on holds
        of the result exactly when the root directory does not end on a block boundary, that is
        unless two plus the number of files is a multiple of 64. */
    method Make(files: seq<File>) returns (fits: bool)
      requires Valid() && freeinode == ROOTINO && freeblock == NMETA && Named(files)
      modifies this`disk, this`freeblock, this`freeinode, this`g, this`inodes, this`owner
      ensures fits ==> SuperOk(SB, disk) && Core(SB, disk, inodes, owner) && SyncedBut(SB, disk, inodes, NINODES)
      ensures fits ==> (FilesOk(disk, inodes, NINODES) <==> (2 + |files|) % 64 != 0)
      ensures fits ==> Hold(disk, inodes, files)
      ensures fits ==> RootStarts(disk, inodes, RootDir(files))
      ensures fits <==> Fits(files)
    {
      hide Core, FileOk, SyncedAt, Bytes, Tight, Hold;
      fits := Populate(files);
      if !fits { return; }
      RootLength(files);
      BytesLength(g, inodes[ROOTINO]);
      ghost var g0, n0, o0 := g, inodes, owner;
      RoundRoot();
      WriteBitmap();
      AllSame(g0, n0, NINODES, ROOTINO);
      RootAfter(g0, n0, o0, disk, inodes, files);
      OthersAfter(g0, n0, o0, disk, inodes, files);
    }
  }

  const DIRSIZ: nat := 14

  /** A host file named on the command line of mkfs, its name padded with zeroes. */
  datatype File = File(name: seq<byte>, contents: seq<byte>)

  /** A directory entry. */
  function Dirent(inum: nat, name: seq<byte>): seq<byte> {
    [inum % 256, inum / 256 % 256] + name
  }

  lemma DirentLength(inum: nat, name: seq<byte>)
    ensures |Dirent(inum, name)| == 2 + |name|
  {
  }

  lemma {:induction false} NothingToSum(files: seq<File>)
    requires forall k :: 0 <= k < |files| ==> files[k].contents == []
    ensures SumOf(files) == 0
  {
    if files != [] {
      NothingToSum(files[..|files| - 1]);
    }
  }

  lemma OneBlock()
    ensures BlocksOf(0) == 0 && BlocksOf(16) == BlocksOf(32) == 1 && SumOf([]) == 0
  {
  }

  /** One file more: what it takes, and what it means if there is no room for it. */
  lemma SumNext(files: seq<File>, i: nat)
    requires i < |files|
    ensures SumOf(files[..i + 1]) == SumOf(files[..i]) + BlocksOf(|files[i].contents|)
    ensures 2 + i >= NINODES ==> !Fits(files)
    ensures |files[i].contents| > MAXBYTES ==> !Fits(files)
    ensures NMETA + BlocksOf(16 * (3 + i)) + SumOf(files[..i]) + BlocksOf(|files[i].contents|) > FSSIZE ==> !Fits(files)
  {
    assert files[..i + 1][..i] == files[..i];
    SumPrefix(files, i + 1);
    MoreBlocks(16 * (3 + i), 16 * (2 + |files|));
  }

  lemma RootNext(files: seq<File>, i: nat)
    requires i < |files|
    ensures RootDir(files[..i + 1]) == RootDir(files[..i]) + Dirent(2 + i, files[i].name)
  {
    assert files[..i + 1][..i] == files[..i];
  }

  lemma AllFit(files: seq<File>, fits: bool)
    requires !fits ==> !Fits(files)
    requires fits ==> 2 + |files| <= NINODES && NMETA + BlocksOf(16 * (2 + |files|)) + SumOf(files) <= FSSIZE
    requires fits ==> forall k :: 0 <= k < |files| ==> |files[k].contents| <= MAXBYTES
    ensures fits <==> Fits(files)
  {
  }

  /** With 62 empty files everything fits, and yet the last block of the root directory is missing. */
  method FullDirectory(name: seq<byte>) returns (image: Image, files: seq<File>)
    requires |name| == DIRSIZ
    ensures |files| == 62 && Fits(files)
    ensures SuperOk(SB, image.disk) && Core(SB, image.disk, image.inodes, image.owner) && Hold(image.disk, image.inodes, files)
    ensures !FilesOk(image.disk, image.inodes, NINODES)
  {
    hide Core, Hold, FilesOk;
    image := new Image();
    files := seq(62, _ => File(name, []));
    NothingToSum(files);
    var _ := image.Make(files);
  }

  /** The blocks that the contents of the files take. */
  function SumOf(files: seq<File>): nat {
    if files == [] then 0 else SumOf(files[..|files| - 1]) + BlocksOf(|files[|files| - 1].contents|)
  }

  lemma {:induction false} SumPrefix(files: seq<File>, k: nat)
    requires k <= |files|
    ensures SumOf(files[..k]) <= SumOf(files)
  {
    if k < |files| {
      SumPrefix(files[..|files| - 1], k);
      assert files[..|files| - 1][..k] == files[..k];
    } else {
      assert files[..k] == files;
    }
  }

  /** There is room for the files: in the blocks of the image, besides the root directory, in the inodes,
      and in what one inode can name. */
  predicate Fits(files: seq<File>) {
    && 2 + |files| <= NINODES
    && NMETA + BlocksOf(16 * (2 + |files|)) + SumOf(files) <= FSSIZE
    && forall k :: 0 <= k < |files| ==> |files[k].contents| <= MAXBYTES
  }

  ghost predicate FileIs(g: Disk, inodes: seq<Inode>, j: nat, contents: seq<byte>) {
    j < |inodes| && InodeOk(inodes[j]) && inodes[j].size <= MAXBYTES && Bytes(g, inodes[j]) == contents
  }

  const T_DIR: short := 1
  const T_FILE: short := 2

  /** The names of the two entries of an empty directory: one and two dots. */
  const DOT: seq<byte> := [46, 0, 0, 0, 0, 0, 0, 0, 0, 0, 0, 0, 0, 0]
  const DOTDOT: seq<byte> := [46, 46, 0, 0, 0, 0, 0, 0, 0, 0, 0, 0, 0, 0]

  ghost predicate Named(files: seq<File>) {
    forall k :: 0 <= k < |files| ==> |files[k].name| == DIRSIZ
  }

  /** The entries of the root directory: file k has inode 2 + k. */
  ghost function RootDir(files: seq<File>): seq<byte> {
    if files == [] then Dirent(ROOTINO, DOT) + Dirent(ROOTINO, DOTDOT)
    else RootDir(files[..|files| - 1]) + Dirent(1 + |files|, files[|files| - 1].name)
  }

  lemma {:induction false} RootLength(files: seq<File>)
    requires Named(files)
    ensures |RootDir(files)| == 16 * (2 + |files|)
  {
    if files != [] {
      RootLength(files[..|files| - 1]);
    }
  }

  /** Inode 2 + k holds the contents of file k. */
  ghost predicate Hold(g: Disk, inodes: seq<Inode>, files: seq<File>) {
    forall k: nat :: k < |files| ==> FileIs(g, inodes, 2 + k, files[k].contents)
  }

  ghost predicate RootStarts(g: Disk, inodes: seq<Inode>, entries: seq<byte>) {
    && ROOTINO < |inodes| && InodeOk(inodes[ROOTINO]) && inodes[ROOTINO].size <= MAXBYTES
    && entries <= Bytes(g, inodes[ROOTINO])
  }

  lemma HoldNext(g0: Disk, n0: seq<Inode>, g: Disk, n: seq<Inode>, files: seq<File>, i: nat)
    requires i < |files| && Hold(g0, n0, files[..i]) && FileIs(g, n, 2 + i, files[i].contents)
    requires forall j: nat :: 1 < j < 2 + i ==> SameFile(g0, n0, g, n, j)
    ensures Hold(g, n, files[..i + 1])
  {
    hide Bytes;
    forall k: nat | k < i ensures FileIs(g, n, 2 + k, files[k].contents) {
      assert SameFile(g0, n0, g, n, 2 + k) && FileIs(g0, n0, 2 + k, files[..i][k].contents);
    }
  }

  /** The root directory of the finished image. */
  lemma RootAfter(g0: Disk, n0: seq<Inode>, o0: Owner, e: Disk, n: seq<Inode>, files: seq<File>)
    requires Core(SB, g0, n0, o0) && |e| == |g0| && InodesOk(SB, n0) && ROOTINO < |n0|
    requires FileOk(g0, n0[ROOTINO]) && Tight(g0, n0[ROOTINO], n0[ROOTINO].size)
    requires n0[ROOTINO].kind == T_DIR && n0[ROOTINO].size == 16 * (2 + |files|) && 2 + |files| <= NINODES
    requires Bytes(g0, n0[ROOTINO]) == RootDir(files)
    requires n == n0[ROOTINO := n0[ROOTINO].(size := (n0[ROOTINO].size / BSIZE + 1) * BSIZE)]
    requires forall b: nat :: b < |g0| && b >= SB.datastart ==> e[b] == g0[b]
    ensures FileOk(e, n[ROOTINO]) <==> (2 + |files|) % 64 != 0
    ensures RootStarts(e, n, RootDir(files))
  {
    hide Core, FileOk, Tight, Bytes, RootDir;
    FullBlock(2 + |files|);
    Rounded(g0, n0[ROOTINO], n[ROOTINO]);
    RootFrame(g0, n0, o0, e, n[ROOTINO]);
    FileFrame(SB, g0, n0, o0, e, ROOTINO, n0[ROOTINO]);
    LongerFile(e, n0[ROOTINO], n[ROOTINO]);
  }

  lemma FullBlock(entries: nat)
    ensures 16 * entries % BSIZE == 0 <==> entries % 64 == 0
  {
  }

  lemma LongerFile(e: Disk, ino: Inode, ino': Inode)
    requires InodeOk(ino) && InodeOk(ino') && ino' == ino.(size := ino'.size) && ino.size <= ino'.size <= MAXBYTES
    ensures Bytes(e, ino) <= Bytes(e, ino')
  {
  }

  /** The other files of the finished image. */
  lemma OthersAfter(g0: Disk, n0: seq<Inode>, o0: Owner, e: Disk, n: seq<Inode>, files: seq<File>)
    requires Core(SB, g0, n0, o0) && |e| == |g0| && InodesOk(SB, n0) && FilesOk(g0, n0, NINODES)
    requires |n| == NINODES && (forall j: nat :: j < NINODES && j != ROOTINO ==> n[j] == n0[j])
    requires Hold(g0, n0, files)
    requires forall b: nat :: b < |g0| && b >= SB.datastart ==> e[b] == g0[b]
    ensures Hold(e, n, files)
    ensures FilesOk(e, n, NINODES) <==> FileOk(e, n[ROOTINO])
  {
    hide Core, FileOk, Bytes;
    forall j: nat | j < NINODES && j != ROOTINO ensures FileOk(e, n[j]) {
      FileFrame(SB, g0, n0, o0, e, j, n0[j]);
    }
    forall k: nat | k < |files| ensures FileIs(e, n, 2 + k, files[k].contents) {
      assert FileIs(g0, n0, 2 + k, files[k].contents);
      FileFrame(SB, g0, n0, o0, e, 2 + k, n0[2 + k]);
    }
  }

  lemma ReadBack(sb: Super, d: Disk, n: seq<Inode>, i: nat)
    requires SuperOk(sb, d) && i < |n| == sb.ninodes && SyncedAt(sb, d, n, i)
    ensures IBlock(sb, i) < |d| && GetInode(d[IBlock(sb, i)], i % IPB) == n[i]
  {
  }

  /** Rounding the size up to the next block keeps the file well formed exactly when its last
      block is not yet full. */
  lemma Rounded(g: Disk, ino: Inode, ino': Inode)
    requires FileOk(g, ino) && Tight(g, ino, ino.size) && ino.kind != 0 && ino.size < MAXBYTES
    requires ino' == ino.(size := (ino.size / BSIZE + 1) * BSIZE)
    ensures FileOk(g, ino') <==> ino.size % BSIZE != 0
  {
    if ino.size % BSIZE != 0 {
      forall k: nat | k < ino'.size ensures Ref(g, ino', ByteSlot(k)) != 0 {
        if k >= ino.size {
          assert k / BSIZE == (ino.size - 1) / BSIZE;
          assert Ref(g, ino, ByteSlot(ino.size - 1)) != 0;
        } else {
          assert Ref(g, ino, ByteSlot(k)) != 0;
        }
      }
    } else {
      var bn := ino.size / BSIZE;
      assert Ref(g, ino, SlotOf(bn)) == 0;
      assert Ref(g, ino', ByteSlot(ino.size)) == 0;
    }
  }

  lemma RootFrame(g: Disk, n: seq<Inode>, o: Owner, e: Disk, ino: Inode)
    requires Core(SB, g, n, o) && |e| == |g| && ROOTINO < |n| && InodeOk(ino) && ino.addrs == n[ROOTINO].addrs
    requires forall b: nat :: b < |g| && b >= SB.datastart ==> e[b] == g[b]
    ensures FileOk(e, ino) <==> FileOk(g, ino)
  {
    IndirectOwned(SB, g, n, o, ROOTINO);
    forall k: nat | k < MAXBYTES ensures Ref(e, ino, ByteSlot(k)) == Ref(g, ino, ByteSlot(k)) {
      RefFrame(g, e, ino, ByteSlot(k));
    }
  }

  /** A bitmap block that marks the first n blocks. */
  ghost function Marks(n: nat): (buf: Block)
    requires n < BPB
    ensures MarksBelow(buf, n)
  {
    if n == 0 then MarksNone(); ZeroBlock()
    else
      var b := Marks(n - 1);
      MarkNext(b, n - 1);
      b[(n - 1) / 8 := SetBit(b[(n - 1) / 8], (n - 1) % 8)]
  }

  lemma ZeroInode(k: nat)
    requires k < IPB
    ensures GetInode(ZeroBlock(), k) == FREE_INODE
  {
  }

  /** The blank image. */
  lemma Blank(d: Disk, g: Disk, inodes: seq<Inode>)
    requires |d| == |g| == FSSIZE && (forall b: nat :: b < FSSIZE ==> d[b] == ZeroBlock())
    requires OnlyBitmap(SB, d, g) && MarksBelow(g[SB.bmapstart], NMETA)
    requires |inodes| == NINODES && forall j: nat :: j < NINODES ==> inodes[j] == FREE_INODE
    ensures Building(d, g, inodes, map[], NMETA) && FilesOk(g, inodes, NINODES)
    ensures SuperOk(SB, d) && SyncedBut(SB, d, inodes, NINODES)
    ensures forall j: nat :: j < NINODES ==> Tight(g, inodes[j], inodes[j].size)
  {
    forall b: nat | b < FSSIZE ensures SuperOk(SB, g) && (Used(Bm(SB), g, b) <==> b < SB.datastart) {
      UsedIsBelow(g, NMETA, b);
    }
    forall j: nat | j < NINODES ensures SyncedAt(SB, d, inodes, j) {
      IBlockInRange(SB, d, j);
      ZeroInode(j % IPB);
    }
  }

  lemma TightFrame(g0: Disk, n: seq<Inode>, o: Owner, g: Disk, ino: Inode, j: nat)
    requires Core(SB, g0, n, o) && j < |n| && |g| == |g0| && InodeOk(ino) && ino.addrs == n[j].addrs
    requires forall b: nat :: b < |g| && b >= SB.bmapstart ==> g[b] == g0[b]
    requires Tight(g0, ino, ino.size)
    ensures n[j].size == ino.size ==> Tight(g, n[j], n[j].size)
  {
    IndirectOwned(SB, g0, n, o, j);
    forall t: nat | t < NSLOTS ensures Ref(g, n[j], t) == Ref(g0, ino, t) {
      RefFrame(g0, g, n[j], t);
    }
    hide Core, Ref, Tight;
    TightSame(g0, ino, g, n[j], ino.size);
  }

  lemma WrittenFits(d: Disk, ino: Inode, e: Disk, ino': Inode, off: nat, bytes: seq<byte>)
    requires InodeOk(ino) && InodeOk(ino') && BytesWritten(d, ino, e, ino', off, bytes)
    ensures off + |bytes| <= MAXBYTES
  {
  }

  lemma AppendIsSplice(was: seq<byte>, bytes: seq<byte>)
    ensures Splice(was, |was|, bytes) == was + bytes
  {
  }

  /** Where the blocks of a file end does not change with other files or inode blocks. */
  lemma StillTight(g0: Disk, n0: seq<Inode>, o0: Owner, g1: Disk, n1: seq<Inode>, n: seq<Inode>, o: Owner, g: Disk, i: nat, j: nat, end: nat)
    requires Core(SB, g0, n0, o0) && Core(SB, g1, n, o) && OnlyFile(g0, n0, o0, g1, n1, o, i) && |g| == |g1|
    requires n == n1[i := n[i]] && n1[i].addrs == n[i].addrs && n[i].size == end && j < |n| && i < |n|
    requires forall b: nat :: b < |g| && b >= SB.bmapstart ==> g[b] == g1[b]
    requires j != i ==> Tight(g0, n0[j], n0[j].size)
    requires InodeOk(n1[i]) && Tight(g1, n1[i], end)
    ensures Tight(g, n[j], n[j].size)
  {
    IndirectOwned(SB, g1, n, o, j);
    IndirectOwned(SB, g0, n0, o0, j);
    forall t: nat | t < NSLOTS ensures Ref(g, n[j], t) == if j == i then Ref(g1, n1[i], t) else Ref(g0, n0[j], t) {
      RefFrame(g1, g, n[j], t);
      if j != i {
        RefFrame(g0, g1, n[j], t);
      }
    }
    hide Core, OnlyFile, Ref, Tight;
    if j == i {
      TightSame(g1, n1[i], g, n[j], end);
    } else {
      TightSame(g0, n0[j], g, n[j], n[j].size);
    }
  }

  lemma StoredSlots(g: Disk, inodes: seq<Inode>, owner: Owner, i: nat, at: nat, chunk: seq<byte>)
    requires Core(SB, g, inodes, owner) && i < |inodes| && at < MAXBYTES && at % BSIZE + |chunk| <= BSIZE
    requires Ref(g, inodes[i], ByteSlot(at)) != 0
    ensures Ref(g, inodes[i], ByteSlot(at)) < |g|
    ensures forall s: nat :: s < NSLOTS ==> Ref(Stored(g, inodes[i], at, chunk), inodes[i], s) == Ref(g, inodes[i], s)
  {
    StoredCore(SB, g, inodes, owner, i, at, chunk);
    IndirectOwned(SB, g, inodes, owner, i);
  }

  /** Mapping and filling the block at position off moves the end by m bytes. */
  lemma TightNext(g1: Disk, din1: Inode, g2: Disk, g: Disk, din: Inode, off: nat, m: nat)
    requires InodeOk(din1) && InodeOk(din) && Tight(g1, din1, off) && off / BSIZE < MAXFILE && m > 0
    requires OtherSlots(g1, din1, g2, din, SlotOf(off / BSIZE))
    requires forall s: nat :: s < NSLOTS ==> Ref(g, din, s) == Ref(g2, din, s)
    requires m <= BSIZE - off % BSIZE && Ref(g, din, SlotOf(off / BSIZE)) != 0
    requires off / BSIZE < NDIRECT ==> din.addrs[NDIRECT] == din1.addrs[NDIRECT]
    ensures Tight(g, din, off + m)
  {
  }

  lemma SameSlot(g: Disk, inodes: seq<Inode>, owner: Owner, i: nat)
    requires i < |inodes| && InodeOk(inodes[i])
    ensures Grown(g, inodes, owner, g, inodes, owner, i)
    ensures forall s :: OtherSlots(g, inodes[i], g, inodes[i], s)
  {
  }

  lemma OthersTwice(g: Disk, ino: Inode, g1: Disk, ino1: Inode, g2: Disk, s: nat)
    requires InodeOk(ino) && InodeOk(ino1)
    requires OtherSlots(g, ino, g1, ino1, NDIRECT) || OtherSlots(g, ino, g1, ino1, s)
    requires OtherSlots(g1, ino1, g2, ino1, s)
    ensures OtherSlots(g, ino, g2, ino1, s)
  {
  }
}
