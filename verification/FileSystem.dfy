/** The inode layer: block allocation, block mapping, truncation, and reading and
    writing files. The disk here is the logical disk of the log layer; logged
    collects the blocks given to log_write. Inodes are the in-memory copies that
    the caller has locked. */
module FileSystem {
  import opened Common
  import opened Blocks
  import opened Bitmap
  import opened Inodes
  import opened FsState

  lemma AddOne(s: set<nat>, x: nat)
    ensures |s| <= |s + {x}| <= |s| + 1
  {
    if x in s {
      assert s + {x} == s;
    }
  }

  /** Bit bi of the bitmap block that starts at block b belongs to block b + bi. */
  lemma BitOf(m: Map, d: Disk, b: nat, bi: nat)
    requires MapOk(m, d) && b % BPB == 0 && bi < BPB && b + bi < m.size
    ensures BBlock(m, b) < |d| && (Used(m, d, b + bi) <==> Bit(d[BBlock(m, b)][bi / 8], bi % 8))
  {
    Offset(b, bi);
    BBlockInRange(m, d, b);
  }

  lemma Offset(b: nat, bi: nat)
    requires b % BPB == 0 && bi < BPB
    ensures (b + bi) / BPB == b / BPB && (b + bi) % BPB == bi && (b + bi) % 8 == bi % 8
  {
    var q := b / BPB;
    assert b == BPB * q;
    DivSum(BPB, q, bi);
    DivSum(8, 1024 * q, bi);
  }

  lemma CoreBits(sb: Super, d: Disk, inodes: seq<Inode>, owner: Owner)
    requires Core(sb, d, inodes, owner)
    ensures SuperOk(sb, d) && BitsOk(sb, d, owner)
  {
  }

  /** Every block that differs between d and e has been logged in between, and none is forgotten. */
  ghost predicate Journaled(d: Disk, l0: set<nat>, e: Disk, l: set<nat>) {
    |e| == |d| && l0 <= l && forall b: nat :: b < |d| && b !in l ==> e[b] == d[b]
  }

  lemma JournaledTwice(d0: Disk, l0: set<nat>, d1: Disk, l1: set<nat>, d2: Disk, l2: set<nat>)
    requires Journaled(d0, l0, d1, l1) && Journaled(d1, l1, d2, l2)
    ensures Journaled(d0, l0, d2, l2)
  {
  }

  class FileSystem {
    const sb: Super
    var disk: Disk
    var inodes: seq<Inode>
    ghost var owner: Owner
    ghost var logged: set<nat>

    constructor (sb: Super, d: Disk, inodes: seq<Inode>, ghost owner: Owner)
      ensures this.sb == sb && disk == d && this.inodes == inodes && this.owner == owner && logged == {}
    {
      this.sb, this.disk, this.inodes, this.owner, this.logged := sb, d, inodes, owner, {};
    }

    /** The inner loop of balloc: the first clear bit of the bitmap block of block b, as an offset. */
    method ScanBlock(b: nat) returns (bi: nat)
      requires SuperOk(sb, disk) && b % BPB == 0 && b < sb.size
      ensures bi <= BPB && b + bi <= sb.size
      ensures forall x: nat :: b <= x < b + bi ==> Used(Bm(sb), disk, x)
      ensures bi < BPB && b + bi < sb.size ==> !Used(Bm(sb), disk, b + bi)
    {
      hide Bit, Used;
      BBlockInRange(Bm(sb), disk, b);
      var bp := disk[BBlock(Bm(sb), b)];
      bi := 0;
      while bi < BPB && b + bi < sb.size
        invariant bi <= BPB && b + bi <= sb.size
        invariant forall x: nat :: b <= x < b + bi ==> Used(Bm(sb), disk, x)
      {
        BitOf(Bm(sb), disk, b, bi);
        if !Bit(bp[bi / 8], bi % 8) {
          return;
        }
        bi := bi + 1;
      }
    }

    /** The scan of balloc: the first block whose bit is clear, or size. */
    method FindClear() returns (r: nat)
      requires SuperOk(sb, disk)
      ensures r <= sb.size
      ensures forall x: nat :: x < r ==> Used(Bm(sb), disk, x)
      ensures r < sb.size ==> !Used(Bm(sb), disk, r)
    {
      hide Bit, Used;
      var b: nat := 0;
      while b < sb.size
        invariant b % BPB == 0
        invariant forall x: nat :: x < b && x < sb.size ==> Used(Bm(sb), disk, x)
      {
        var bi := ScanBlock(b);
        if bi < BPB && b + bi < sb.size {
          return b + bi;
        }
        DivSum(BPB, 1, b);
        b := b + BPB;
      }
      return sb.size;
    }

    /** balloc: take the first free block and zero it; 0 if the disk is full. */
    method BAlloc() returns (b: nat)
      requires SuperOk(sb, disk) && BitsOk(sb, disk, owner)
      modifies this`disk, this`logged
      ensures b == 0 ==> disk == old(disk) && logged == old(logged)
                         && forall x: nat :: x < sb.size ==> Used(Bm(sb), disk, x)
      ensures b != 0 ==> sb.datastart <= b < sb.size && b !in owner
                         && forall x: nat :: x < b ==> Used(Bm(sb), old(disk), x)
      ensures b != 0 ==> disk == Allocated(sb, old(disk), b)
      ensures b != 0 ==> logged == old(logged) + {BBlock(Bm(sb), b), b}
      ensures Journaled(old(disk), old(logged), disk, logged)
    {
      var r := FindClear();
      if r == sb.size {
        return 0;
      }
      disk := Mark(Bm(sb), disk, r);
      logged := logged + {BBlock(Bm(sb), r)};
      // bzero
      disk := disk[r := ZeroBlock()];
      logged := logged + {r};
      return r;
    }

    /** bfree; false is the panic "freeing free block". */
    method BFree(b: nat) returns (ok: bool)
      requires SuperOk(sb, disk) && b < sb.size
      modifies this`disk, this`logged
      ensures ok <==> Used(Bm(sb), old(disk), b)
      ensures ok ==> disk == Unmark(Bm(sb), old(disk), b) && logged == old(logged) + {BBlock(Bm(sb), b)}
      ensures !ok ==> disk == old(disk) && logged == old(logged)
      ensures Journaled(old(disk), old(logged), disk, logged)
    {
      if !Used(Bm(sb), disk, b) {
        return false;
      }
      disk := Unmark(Bm(sb), disk, b);
      logged := logged + {BBlock(Bm(sb), b)};
      return true;
    }

    /** Block ownership. */
    ghost predicate Owned()
      reads this
    {
      SuperOk(sb, disk) && InodesOk(sb, inodes) && Core(sb, disk, inodes, owner)
    }

    /** Give the empty direct slot s of inode i (or its indirect pointer) a fresh block. */
    method AllocSlot(i: nat, s: nat) returns (addr: nat)
      requires Owned() && i < sb.ninodes && s <= NDIRECT && inodes[i].addrs[s] == 0
      modifies this`disk, this`inodes, this`owner, this`logged
      ensures Owned() && Grown(old(disk), old(inodes), old(owner), disk, inodes, owner, i)
      ensures MapStep(sb, old(disk), old(inodes), old(logged), disk, inodes, logged, i, s, addr)
      ensures Journaled(old(disk), old(logged), disk, logged)
    {
      hide Core, Grown, MapStep, BitsOk;
      CoreBits(sb, disk, inodes, owner);
      addr := BAlloc();
      if addr == 0 {
        Unmapped(sb, disk, inodes, owner, logged, i, s);
        return;
      }
      AttachDirect(sb, old(disk), inodes, owner, i, s, addr);
      AttachedDirect(sb, old(disk), inodes, owner, old(logged), i, s, addr);
      inodes := inodes[i := WithAddr(inodes[i], s, addr)];
      owner := owner[addr := Slot(i, s)];
    }

    /** Give the empty slot k of the indirect block of inode i a fresh block. */
    method AllocEntry(i: nat, k: nat) returns (addr: nat)
      requires Owned() && i < sb.ninodes && k < NINDIRECT && inodes[i].addrs[NDIRECT] != 0
      requires Ref(disk, inodes[i], NDIRECT + 1 + k) == 0
      modifies this`disk, this`owner, this`logged
      ensures Owned() && Grown(old(disk), old(inodes), old(owner), disk, inodes, owner, i)
      ensures MapStep(sb, old(disk), old(inodes), old(logged), disk, inodes, logged, i, NDIRECT + 1 + k, addr)
      ensures Journaled(old(disk), old(logged), disk, logged)
    {
      hide Core, Grown, MapStep, BitsOk;
      CoreBits(sb, disk, inodes, owner);
      addr := BAlloc();
      if addr == 0 {
        Unmapped(sb, disk, inodes, owner, logged, i, NDIRECT + 1 + k);
        return;
      }
      AttachIndirect(sb, old(disk), inodes, owner, i, NDIRECT + 1 + k, addr);
      AttachedIndirect(sb, old(disk), inodes, owner, old(logged), i, k, addr);
      var x := inodes[i].addrs[NDIRECT];
      disk := disk[x := SetWord(disk[x], k, addr)];
      owner := owner[addr := Slot(i, NDIRECT + 1 + k)];
      logged := logged + {x};
    }

    /** bmap: the block of the bn-th block of inode i, allocated if missing; 0 if the disk is full. */
    method BMap(i: nat, bn: nat) returns (addr: nat)
      requires Owned() && i < sb.ninodes && bn < MAXFILE
      modifies this`disk, this`inodes, this`owner, this`logged
      ensures Owned() && Grown(old(disk), old(inodes), old(owner), disk, inodes, owner, i)
      ensures MapStep(sb, old(disk), old(inodes), old(logged), disk, inodes, logged, i, SlotOf(bn), addr)
      ensures old(Ref(disk, inodes[i], SlotOf(bn))) != 0 ==> owner == old(owner)
      ensures Journaled(old(disk), old(logged), disk, logged)
    {
      hide Core, Grown, MapStep;
      if bn < NDIRECT {
        addr := inodes[i].addrs[bn];
        if addr == 0 {
          addr := AllocSlot(i, bn);
        } else {
          Mapped(sb, disk, inodes, owner, logged, i, bn);
        }
        return;
      }
      var k := bn - NDIRECT;
      if inodes[i].addrs[NDIRECT] == 0 {
        var x := AllocSlot(i, NDIRECT);
        if x == 0 {
          NoIndirect(sb, old(disk), old(inodes), old(logged), disk, inodes, logged, i, bn + 1);
          return 0;
        }
        ghost var d1, n1, o1, l1 := disk, inodes, owner, logged;
        EmptyIndirect(sb, old(disk), old(inodes), old(logged), d1, n1, l1, i, x, bn + 1);
        addr := AllocEntry(i, k);
        GrownTwice(old(disk), old(inodes), old(owner), d1, n1, o1, disk, inodes, owner, i);
        MapTwice(sb, old(disk), old(inodes), old(logged), d1, n1, l1, disk, inodes, logged, i, x, bn + 1, addr);
        return;
      }
      IndirectOwned(sb, disk, inodes, owner, i);
      addr := Word(disk[inodes[i].addrs[NDIRECT]], k);
      if addr == 0 {
        addr := AllocEntry(i, k);
      } else {
        Mapped(sb, disk, inodes, owner, logged, i, bn + 1);
      }
    }

    /** A consistent file system: block ownership, well-formed files, up-to-date inodes on disk. */
    ghost predicate Valid()
      reads this
    {
      && Owned()
      && FilesOk(disk, inodes, sb.ninodes)
      && SyncedBut(sb, disk, inodes, sb.ninodes)
    }

    /** iupdate: copy the in-memory inode to disk. */
    method IUpdate(i: nat)
      requires Owned() && i < sb.ninodes && SyncedBut(sb, disk, inodes, i)
      modifies this`disk, this`logged
      ensures Owned() && SyncedBut(sb, disk, inodes, sb.ninodes)
      ensures disk == FsState.Updated(sb, old(disk), i, inodes[i])
      ensures forall b: nat :: b < |disk| && b >= sb.bmapstart ==> disk[b] == old(disk)[b]
      ensures logged == old(logged) + {IBlock(sb, i)}
      ensures Journaled(old(disk), old(logged), disk, logged)
    {
      hide Core, SyncedBut, PutInode;
      UpdatedFrame(sb, disk, inodes, owner, i, inodes[i]);
      NowSynced(sb, disk, inodes, i);
      IBlockInRange(sb, disk, i);
      disk := disk[IBlock(sb, i) := PutInode(disk[IBlock(sb, i)], i % IPB, inodes[i])];
      logged := logged + {IBlock(sb, i)};
    }

    /** One round of writei's loop: map the block, copy the chunk in (unless the copy from the
        caller fails) and log the block. */
    method WriteChunk(i: nat, at: nat, chunk: seq<byte>, copies: bool) returns (done: bool)
      requires Owned() && i < sb.ninodes && at < MAXBYTES && 0 < |chunk| && at % BSIZE + |chunk| <= BSIZE
      modifies this`disk, this`inodes, this`owner, this`logged
      ensures Owned() && OnlyFile(old(disk), old(inodes), old(owner), disk, inodes, owner, i)
      ensures forall x: nat :: x < sb.bmapstart ==> disk[x] == old(disk)[x]
      ensures BytesWritten(old(disk), old(inodes)[i], disk, inodes[i], at, if done then chunk else [])
      ensures if done then copies else !copies || Full(sb, disk)
      ensures Cost(inodes[i], logged) <= Cost(old(inodes)[i], old(logged))
                                         + if Ref(old(disk), old(inodes)[i], ByteSlot(at)) == 0 then 2 else 1
      ensures Journaled(old(disk), old(logged), disk, logged)
    {
      hide Core, Grown, OnlyFile, BytesWritten, Cost, MapStep, Ref;
      ghost var d0, n0, o0, l0 := disk, inodes, owner, logged;
      var addr := BMap(i, at / BSIZE);
      ChunkMapped(sb, d0, n0, o0, disk, inodes, owner, i, at);
      ChunkPrice(sb, d0, n0, l0, disk, inodes, logged, i, at, addr);
      if addr == 0 {
        return false;
      }
      if !copies {
        return false;
      }
      ChunkStored(sb, d0, n0, o0, disk, inodes, owner, i, at, chunk);
      ChunkCost(inodes[i], logged, addr);
      disk := disk[addr := Patched(disk[addr], at % BSIZE, chunk)];
      logged := logged + {addr};
      return true;
    }

    /** writei. src is what the caller wants written; copying from it works up to byte avail. */
    method WriteI(i: nat, src: seq<byte>, avail: nat, off: nat) returns (r: int)
      requires Valid() && i < sb.ninodes && inodes[i].kind != 0
      requires off < 0x1_0000_0000 && |src| < 0x1_0000_0000
      modifies this`disk, this`inodes, this`owner, this`logged
      ensures Valid()
      ensures r == -1 <==> off > old(inodes)[i].size || off + |src| > MAXBYTES
      ensures r == -1 ==> disk == old(disk) && inodes == old(inodes) && logged == old(logged)
      ensures r != -1 ==> 0 <= r <= |src| && r <= avail
      ensures r != -1 ==> Bytes(disk, inodes[i]) == Splice(Bytes(old(disk), old(inodes)[i]), off, src[..r])
      ensures r != -1 ==> inodes[i] == old(inodes)[i].(addrs := inodes[i].addrs, size := inodes[i].size)
      ensures OthersSame(old(disk), old(inodes), disk, inodes, i)
      ensures 0 <= r < |src| ==> avail < r + BSIZE || Full(sb, disk)
      ensures old(logged) == {} && |src| <= WRITEMAX ==> |logged| <= MAXOPBLOCKS
      ensures Journaled(old(disk), old(logged), disk, logged)
    {
      hide Core, OnlyFile, BytesWritten, FileOk, Bytes, SameFile, OthersSame, SyncedBut, Cost, Price, Full, Splice;
      ghost var d0, n0, o0 := disk, inodes, owner;
      AllSame(disk, inodes, sb.ninodes, i);
      if off > inodes[i].size || (off + |src|) % 0x1_0000_0000 < off {
        return -1;
      }
      if off + |src| > MAXBYTES {
        return -1;
      }
      EmptyCost(inodes[i], logged);
      var tot, c := WriteLoop(i, src, avail, off);
      CostAtLeast(inodes[i], logged);
      SetSize(i, off + tot, d0, n0, o0, off, src[..tot]);
      return tot;
    }

    /** The end of writei: grow the size if needed and write the inode back. */
    method SetSize(i: nat, end: nat, ghost d0: Disk, ghost n0: seq<Inode>, ghost o0: Owner, ghost off: nat, ghost bytes: seq<byte>)
      requires Owned() && i < sb.ninodes && Core(sb, d0, n0, o0) && InodesOk(sb, n0) && SuperOk(sb, d0)
      requires FilesOk(d0, n0, sb.ninodes) && SyncedBut(sb, d0, n0, sb.ninodes) && n0[i].kind != 0 && off <= n0[i].size
      requires OnlyFile(d0, n0, o0, disk, inodes, owner, i) && end == off + |bytes| <= MAXBYTES
      requires BytesWritten(d0, n0[i], disk, inodes[i], off, bytes)
      requires forall x: nat :: x < sb.bmapstart ==> disk[x] == d0[x]
      modifies this`disk, this`inodes, this`logged
      ensures Valid()
      ensures inodes[i] == n0[i].(addrs := inodes[i].addrs, size := inodes[i].size)
      ensures InodeOk(n0[i]) && n0[i].size <= MAXBYTES && inodes[i].size <= MAXBYTES
      ensures Bytes(disk, inodes[i]) == Splice(Bytes(d0, n0[i]), off, bytes)
      ensures OthersSame(d0, n0, disk, inodes, i)
      ensures logged == old(logged) + {IBlock(sb, i)} && |logged| <= |old(logged)| + 1
      ensures Full(sb, old(disk)) ==> Full(sb, disk)
      ensures Journaled(old(disk), old(logged), disk, logged)
    {
      hide Core, OnlyFile, BytesWritten, SyncedAt, Bytes, OthersSame, FileOk;
      AllSame(d0, n0, sb.ninodes, i);
      FileSize(d0, n0[i]);
      OnlyFileInodes(d0, n0, o0, disk, inodes, owner, i);
      var ino := inodes[i];
      if end > ino.size {
        ino := ino.(size := end);
      }
      AfterWrite(sb, d0, n0, o0, disk, inodes, owner, i, off, bytes, ino);
      inodes := inodes[i := ino];
      ghost var d1 := disk;
      SyncedFrame(sb, d0, n0, d1, inodes, i);
      AddOne(logged, IBlock(sb, i));
      IUpdate(i);
      AfterUpdate(sb, d0, n0, d1, inodes, owner, disk, i);
      SameBits(sb, d1, disk);
    }

    /** The state inside the loop of writei: bytes are in place, and no more has been logged than
        trying c blocks may. */
    ghost predicate Writing(d0: Disk, n0: seq<Inode>, o0: Owner, l0: set<nat>, i: nat, off: nat, bytes: seq<byte>, c: nat)
      requires InodesOk(sb, n0) && i < sb.ninodes
      reads this
    {
      && Owned() && OnlyFile(d0, n0, o0, disk, inodes, owner, i) && |disk| == |d0|
      && (forall x: nat :: x < sb.bmapstart && x < |disk| ==> disk[x] == d0[x])
      && BytesWritten(d0, n0[i], disk, inodes[i], off, bytes)
      && Cost(inodes[i], logged) <= Cost(n0[i], l0) + Price(off, c)
      && Journaled(d0, l0, disk, logged)
    }

    /** The loop of writei; c counts the blocks tried. */
    method WriteLoop(i: nat, src: seq<byte>, avail: nat, off: nat) returns (tot: nat, ghost c: nat)
      requires Owned() && i < sb.ninodes && off <= inodes[i].size && off + |src| <= MAXBYTES && FileOk(disk, inodes[i])
      modifies this`disk, this`inodes, this`owner, this`logged
      ensures tot <= |src| && Writing(old(disk), old(inodes), old(owner), old(logged), i, off, src[..tot], c)
      ensures tot <= avail && (tot < |src| ==> avail < tot + BSIZE || (SuperOk(sb, disk) && Full(sb, disk)))
      ensures |src| <= WRITEMAX ==> Price(off, c) <= 7
    {
      hide Core, OnlyFile, BytesWritten, Cost, Price, Full, Tried, Ref, FileOk;
      ghost var d0, n0, o0, l0 := disk, inodes, owner, logged;
      NothingWritten(d0, n0[i], off);
      OnlyFileRefl(d0, n0, o0, i);
      PriceStep(off, 0);
      TriedNone(off, |src|);
      assert Writing(d0, n0, o0, l0, i, off, src[..0], 0);
      FirstMapped(d0, n0[i], off);
      hide SuperOk, Writing;
      tot := 0;
      c := 0;
      while tot < |src|
        invariant tot <= |src| && tot <= avail && Writing(d0, n0, o0, l0, i, off, src[..tot], c)
        invariant c == 0 ==> disk == d0 && inodes == n0
        invariant Tried(off, tot, |src|, c)
      {
        TriedBound(off, tot, |src|, c);
        TriedZero(off, tot, |src|, c);
        var done, m := WriteRound(i, src, avail, off, tot, d0, n0, o0, l0, c);
        c := c + 1;
        if !done {
          return;
        }
        TriedNext(off, tot, m, |src|, c - 1);
        tot := tot + m;
      }
      TriedBound(off, tot, |src|, c);
    }

    /** One round of that loop. */
    method WriteRound(i: nat, src: seq<byte>, avail: nat, off: nat, tot: nat,
                      ghost d0: Disk, ghost n0: seq<Inode>, ghost o0: Owner, ghost l0: set<nat>, ghost c: nat)
      returns (done: bool, m: nat)
      requires InodesOk(sb, n0) && i < sb.ninodes && tot < |src| && off + |src| <= MAXBYTES
      requires Writing(d0, n0, o0, l0, i, off, src[..tot], c)
      requires c == 0 ==> tot == 0 && (off % BSIZE != 0 ==> Ref(disk, inodes[i], ByteSlot(off)) != 0)
      modifies this`disk, this`inodes, this`owner, this`logged
      ensures m == if |src| - tot < BSIZE - (off + tot) % BSIZE then |src| - tot else BSIZE - (off + tot) % BSIZE
      ensures tot + m <= |src| && Writing(d0, n0, o0, l0, i, off, src[..if done then tot + m else tot], c + 1)
      ensures if done then tot + m <= avail else avail < tot + BSIZE || (SuperOk(sb, disk) && Full(sb, disk))
    {
      hide Core, OnlyFile, BytesWritten, Cost, Price, Full, Ref;
      var at := off + tot;
      m := if |src| - tot < BSIZE - at % BSIZE then |src| - tot else BSIZE - at % BSIZE;
      ghost var d1, n1, o1 := disk, inodes, owner;
      done := WriteChunk(i, at, src[tot..tot + m], tot + m <= avail);
      OnlyFileTwice(d0, n0, o0, d1, n1, o1, disk, inodes, owner, i);
      WrittenTwice(d0, n0[i], d1, n1[i], disk, inodes[i], off, src[..tot], if done then src[tot..tot + m] else []);
      assert src[..tot] + src[tot..tot + m] == src[..tot + m];
      assert src[..tot] + [] == src[..tot];
      PriceStep(off, c);
    }

    /** readi: the bytes of the file from off on, at most n of them. Copying to the caller works up
        to byte avail; -1 if it fails. Nothing is ever allocated. */
    method ReadI(i: nat, off: nat, n: nat, avail: nat) returns (r: int, out: seq<byte>)
      requires Valid() && i < sb.ninodes && off < 0x1_0000_0000 && n < 0x1_0000_0000
      modifies this`disk, this`inodes, this`owner, this`logged
      ensures disk == old(disk) && inodes == old(inodes) && owner == old(owner) && logged == old(logged)
      ensures off > inodes[i].size || off + n >= 0x1_0000_0000 ==> r == 0
      ensures off <= inodes[i].size && off + n < 0x1_0000_0000 ==>
                var count := if off + n > inodes[i].size then inodes[i].size - off else n;
                && (r == -1 <==> avail < count)
                && (r != -1 ==> r == count && out == Bytes(disk, inodes[i])[off..off + count])
    {
      hide Core, SyncedBut, FileOk, Bytes;
      AllSame(disk, inodes, sb.ninodes, i);
      FileSize(disk, inodes[i]);
      if off > inodes[i].size || (off + n) % 0x1_0000_0000 < off {
        return 0, [];
      }
      var count := n;
      if off + n > inodes[i].size {
        count := inodes[i].size - off;
      }
      r, out := ReadLoop(i, off, count, avail);
    }

    /** The loop of readi. */
    method ReadLoop(i: nat, off: nat, count: nat, avail: nat) returns (r: int, out: seq<byte>)
      requires Owned() && i < sb.ninodes && FileOk(disk, inodes[i]) && off + count <= inodes[i].size
      modifies this`disk, this`inodes, this`owner, this`logged
      ensures disk == old(disk) && inodes == old(inodes) && owner == old(owner) && logged == old(logged)
      ensures r == if avail < count then -1 else count
      ensures r != -1 ==> out == Bytes(disk, inodes[i])[off..off + count]
    {
      hide Core, FileOk, Bytes, SuperOk;
      ghost var d0, n0, o0, l0 := disk, inodes, owner, logged;
      FileSize(d0, n0[i]);
      ghost var all := Bytes(d0, n0[i]);
      BytesLength(d0, n0[i]);
      var tot: nat := 0;
      out := [];
      while tot < count
        invariant tot <= count && disk == d0 && inodes == n0 && owner == o0 && logged == l0
        invariant out == all[off..off + tot]
        invariant tot <= avail
      {
        var at := off + tot;
        var m := if count - tot < BSIZE - at % BSIZE then count - tot else BSIZE - at % BSIZE;
        var bytes := ReadChunk(i, at, m);
        if tot + m > avail {
          return -1, [];
        }
        out := out + bytes;
        assert out == all[off..at] + all[at..at + m];
        tot := tot + m;
      }
      return tot, out;
    }

    /** One round of readi's loop, up to the copy to the caller. */
    method ReadChunk(i: nat, at: nat, m: nat) returns (bytes: seq<byte>)
      requires Owned() && i < sb.ninodes && FileOk(disk, inodes[i]) && 0 < m && at + m <= inodes[i].size && at % BSIZE + m <= BSIZE
      modifies this`disk, this`inodes, this`owner, this`logged
      ensures disk == old(disk) && inodes == old(inodes) && owner == old(owner) && logged == old(logged)
      ensures bytes == Bytes(disk, inodes[i])[at..at + m]
    {
      hide Core, Grown, MapStep, Ref;
      assert Ref(disk, inodes[i], ByteSlot(at)) != 0;
      ghost var d0, n0, l0 := disk, inodes, logged;
      var addr := BMap(i, at / BSIZE);
      AlreadyMapped(sb, d0, n0, l0, disk, inodes, logged, i, ByteSlot(at), addr);
      InDisk(sb, disk, inodes, owner, i, ByteSlot(at));
      BlockBytes(disk, inodes[i], at, m);
      bytes := disk[addr][at % BSIZE..at % BSIZE + m];
    }

    /** One transaction of filewrite: begin_op, writei, end_op. The count of bytes written comes back. */
    method WritePiece(i: nat, src: seq<byte>, avail: nat, off: nat, done: nat, n1: nat, ghost was: seq<byte>) returns (r: int)
      requires Valid() && i < sb.ninodes && inodes[i].kind != 0 && off + done < 0x1_0000_0000 && |src| < 0x1_0000_0000
      requires done + n1 <= |src| && n1 <= WRITEMAX && FileHas(disk, inodes, i, was, off, src, done)
      modifies this`disk, this`inodes, this`owner, this`logged
      ensures Valid() && OthersSame(old(disk), old(inodes), disk, inodes, i) && inodes[i].kind != 0
      ensures r == -1 || 0 <= r <= n1
      ensures r == -1 ==> off > |was| || off + done + n1 > MAXBYTES
      ensures 0 <= r < n1 ==> avail < done + r + BSIZE || Full(sb, disk)
      ensures FileHas(disk, inodes, i, was, off, src, if r == -1 then done else done + r)
      ensures r > 0 ==> off + done + r <= MAXBYTES
      ensures |logged| <= MAXOPBLOCKS
      ensures |disk| == |old(disk)| && forall b: nat :: b < |disk| && b !in logged ==> disk[b] == old(disk)[b]
    {
      hide Core, FileOk, SyncedBut, SuperOk, OthersSame, Bytes;
      ghost var d1, n2 := disk, inodes;
      AllSame(disk, inodes, sb.ninodes, i);
      FileSize(disk, inodes[i]);
      BytesLength(disk, inodes[i]);
      logged := {};
      r := WriteI(i, src[done..done + n1], if avail > done then avail - done else 0, off + done);
      AllSame(disk, inodes, sb.ninodes, i);
      FileSize(disk, inodes[i]);
      BytesLength(disk, inodes[i]);
      if r != -1 {
        assert src[done..done + n1][..r] == src[done..done + r];
        if off <= |was| {
          SpliceTwice(was, off, src, done, r);
        }
      }
    }

    /** filewrite on an inode: pieces of at most WRITEMAX bytes, each in a transaction of its own.
        peak is the largest number of blocks any of the transactions has logged. */
    method FileWrite(i: nat, src: seq<byte>, avail: nat, off: nat) returns (ret: int, off': nat, ghost peak: nat)
      requires Valid() && i < sb.ninodes && inodes[i].kind != 0 && off < 0x1_0000_0000 && |src| < 0x8000_0000
      modifies this`disk, this`inodes, this`owner, this`logged
      ensures Valid() && OthersSame(old(disk), old(inodes), disk, inodes, i)
      ensures peak <= MAXOPBLOCKS
      ensures off <= off' <= off + |src| && ret == if off' == off + |src| then |src| else -1
      ensures old(inodes)[i].size <= MAXBYTES
      ensures FileHas(disk, inodes, i, Bytes(old(disk), old(inodes)[i]), off, src, off' - off)
      ensures ret == -1 ==> off > old(inodes)[i].size || off' + Smaller(off + |src| - off', WRITEMAX) > MAXBYTES
                            || avail < off' - off + BSIZE || Full(sb, disk)
    {
      hide Core, FilesOk, SyncedBut, SuperOk, OthersSame, Bytes, FileHas, Full;
      ghost var d0, n0 := disk, inodes;
      ghost var was := NothingYet(d0, n0, sb.ninodes, i, off, src);
      off', peak := off, 0;
      var done: nat := 0;
      while done < |src|
        invariant Valid() && OthersSame(d0, n0, disk, inodes, i) && i < |inodes| && inodes[i].kind != 0
        invariant done <= |src| && off' == off + done < 0x1_0000_0000 && peak <= MAXOPBLOCKS
        invariant FileHas(disk, inodes, i, was, off, src, done)
      {
        var n1 := Smaller(|src| - done, WRITEMAX);
        ghost var d1, n2 := disk, inodes;
        var r := WritePiece(i, src, avail, off, done, n1, was);
        SameTwice(d0, n0, d1, n2, disk, inodes, i);
        peak := if |logged| > peak then |logged| else peak;
        if r > 0 {
          off' := off' + r;
        }
        if r != n1 {
          ret := -1;
          return;
        }
        done := done + r;
      }
      ret := |src|;
    }

    /** One round of the first loop of itrunc: empty a direct slot. */
    method FreeSlot(i: nat, k: nat, ghost o0: Owner)
      requires Owned() && i < sb.ninodes && k < NDIRECT
      requires Removed(o0, owner, i, k) && forall b :: b in o0 ==> o0[b].idx < NSLOTS
      modifies this`disk, this`inodes, this`owner, this`logged
      ensures Owned() && OnlyBitmap(sb, old(disk), disk) && Journaled(old(disk), old(logged), disk, logged)
      ensures inodes == old(inodes)[i := WithAddr(old(inodes)[i], k, 0)] && Removed(o0, owner, i, k + 1)
    {
      hide Core, Removed;
      RemovedStep(sb, disk, inodes, owner, o0, i, k);
      var b := inodes[i].addrs[k];
      if b != 0 {
        DetachDirect(sb, disk, inodes, owner, i, k);
        OwnedUsed(sb, disk, inodes, owner, b);
        UnmarkedAt(sb, disk, b);
        var ok := BFree(b);
        assert ok;
        inodes := inodes[i := WithAddr(inodes[i], k, 0)];
        owner := owner - {b};
      } else {
        assert inodes[i].addrs[k := 0] == inodes[i].addrs;
      }
    }

    /** The first loop of itrunc: free the direct blocks. */
    method FreeDirect(i: nat)
      requires Owned() && i < sb.ninodes
      modifies this`disk, this`inodes, this`owner, this`logged
      ensures Owned() && Removed(old(owner), owner, i, NDIRECT)
      ensures OnlyBitmap(sb, old(disk), disk)
      ensures Emptied(old(inodes), inodes, i, NDIRECT)
      ensures Journaled(old(disk), old(logged), disk, logged)
    {
      assert Journaled(disk, logged, disk, logged) && OnlyBitmap(sb, disk, disk) && Emptied(inodes, inodes, i, 0);
      hide Core, Removed, Journaled, OnlyBitmap, SuperOk, Emptied, WithAddr;
      OwnerSlots(sb, disk, inodes, owner);
      ghost var o0, n0 := owner, inodes;
      RemovedNone(owner, i);
      var k := 0;
      while k < NDIRECT
        invariant 0 <= k <= NDIRECT
        invariant Owned() && Removed(o0, owner, i, k)
        invariant OnlyBitmap(sb, old(disk), disk) && Journaled(old(disk), old(logged), disk, logged)
        invariant Emptied(n0, inodes, i, k)
      {
        EmptiedNext(n0, inodes, i, k);
        ghost var d1, l1 := disk, logged;
        FreeSlot(i, k, o0);
        BitmapTwice(sb, old(disk), d1, disk);
        JournaledTwice(old(disk), old(logged), d1, l1, disk, logged);
        k := k + 1;
      }
    }

    /** One round of the second loop of itrunc, for a nonzero entry of the indirect block. The inode
        still points to the indirect block, which still lists the entry; dz is the disk with the
        entries freed so far read as zero. */
    method FreeEntry(i: nat, k: nat, ghost dz: Disk) returns (ghost dz': Disk)
      requires SuperOk(sb, disk) && InodesOk(sb, inodes) && Core(sb, dz, inodes, owner) && i < sb.ninodes && k < NINDIRECT
      requires var x := inodes[i].addrs[NDIRECT];
               sb.datastart <= x < |disk| && SameBut(disk, dz, x) && Word(disk[x], k) == Word(dz[x], k) != 0
      modifies this`disk, this`owner, this`logged
      ensures SuperOk(sb, disk) && Core(sb, dz', inodes, owner) && OnlyBitmap(sb, old(disk), disk) && |disk| == |dz'| == |old(disk)|
      ensures var x := inodes[i].addrs[NDIRECT];
              x < |disk| && SameBut(disk, dz', x) && disk[x] == old(disk)[x] && dz'[x] == SetWord(dz[x], k, 0)
      ensures owner == old(owner) - {Ref(dz, inodes[i], NDIRECT + 1 + k)}
      ensures Journaled(old(disk), old(logged), disk, logged)
    {
      hide Core, Used;
      var x := inodes[i].addrs[NDIRECT];
      var b := Word(disk[x], k);
      DetachIndirect(sb, dz, inodes, owner, i, NDIRECT + 1 + k);
      OwnedUsed(sb, dz, inodes, owner, b);
      UnmarkBoth(sb, disk, dz, x, b);
      UnmarkedAt(sb, disk, b);
      dz' := WithEntry(Unmark(Bm(sb), dz, b), x, k, 0);
      var ok := BFree(b);
      assert ok;
      owner := owner - {b};
    }

    /** The state inside the second loop of itrunc: the first k entries of the indirect block x, which still holds a,
        have been freed. */
    ghost predicate Freeing(dz: Disk, d0: Disk, l0: set<nat>, o0: Owner, i: nat, x: nat, a: Block, k: nat)
      reads this
    {
      && SuperOk(sb, disk) && InodesOk(sb, inodes) && Core(sb, dz, inodes, owner) && i < sb.ninodes && k <= NINDIRECT
      && x == inodes[i].addrs[NDIRECT] != 0 && sb.datastart <= x < |disk| == |dz| == |d0|
      && OnlyBitmap(sb, d0, disk) && Journaled(d0, l0, disk, logged)
      && SameBut(disk, dz, x) && disk[x] == a && ZeroBelow(a, dz[x], k)
      && Removed(o0, owner, i, NDIRECT + k) && (forall b :: b in o0 ==> o0[b].idx < NSLOTS)
    }

    /** One round of that loop. */
    method FreeRound(i: nat, k: nat, a: Block, ghost dz: Disk, ghost d0: Disk, ghost l0: set<nat>, ghost o0: Owner, ghost x: nat)
      returns (ghost dz': Disk)
      requires Freeing(dz, d0, l0, o0, i, x, a, k) && k < NINDIRECT
      modifies this`disk, this`owner, this`logged
      ensures Freeing(dz', d0, l0, o0, i, x, a, k + 1)
    {
      hide Core, Removed, ZeroBelow, Journaled, OnlyBitmap, SameBut, SuperOk;
      RemovedStep(sb, dz, inodes, owner, o0, i, NDIRECT + 1 + k);
      ZeroAt(a, dz[x], k);
      ZeroNext(a, dz[x], k);
      dz' := dz;
      if Word(a, k) != 0 {
        ghost var d1, l1 := disk, logged;
        dz' := FreeEntry(i, k, dz);
        BitmapTwice(sb, d0, d1, disk);
        JournaledTwice(d0, l0, d1, l1, disk, logged);
      }
    }

    /** The second loop of itrunc: free the blocks listed in the indirect block. */
    method FreeEntries(i: nat, ghost o0: Owner) returns (ghost dz: Disk)
      requires Owned() && i < sb.ninodes && inodes[i].addrs[NDIRECT] != 0
      requires Removed(o0, owner, i, NDIRECT) && forall b :: b in o0 ==> o0[b].idx < NSLOTS
      modifies this`disk, this`owner, this`logged
      ensures SuperOk(sb, disk) && Core(sb, dz, inodes, owner) && OnlyBitmap(sb, old(disk), disk)
      ensures SameBut(disk, dz, inodes[i].addrs[NDIRECT]) && sb.datastart <= inodes[i].addrs[NDIRECT] < |disk|
      ensures forall t: nat :: NDIRECT < t < NSLOTS ==> Ref(dz, inodes[i], t) == 0
      ensures Removed(o0, owner, i, NSLOTS - 1)
      ensures Journaled(old(disk), old(logged), disk, logged)
    {
      hide Core, Removed, ZeroBelow;
      ghost var d0, l0 := disk, logged;
      var x := inodes[i].addrs[NDIRECT];
      IndirectOwned(sb, disk, inodes, owner, i);
      var a := disk[x];
      dz := disk;
      ZeroNone(a);
      var k := 0;
      assert Freeing(dz, d0, l0, o0, i, x, a, k);
      while k < NINDIRECT
        invariant 0 <= k <= NINDIRECT && Freeing(dz, d0, l0, o0, i, x, a, k)
      {
        hide Freeing;
        dz := FreeRound(i, k, a, dz, d0, l0, o0, x);
        k := k + 1;
      }
      AllZero(a, dz, inodes[i]);
    }

    /** The second half of itrunc: the indirect block and the blocks it lists. */
    method FreeIndirect(i: nat, ghost o0: Owner)
      requires Owned() && i < sb.ninodes
      requires Removed(o0, owner, i, NDIRECT) && forall b :: b in o0 ==> o0[b].idx < NSLOTS
      modifies this`disk, this`inodes, this`owner, this`logged
      ensures Owned() && Removed(o0, owner, i, NSLOTS) && OnlyBitmap(sb, old(disk), disk)
      ensures inodes == old(inodes)[i := WithAddr(old(inodes)[i], NDIRECT, 0)]
      ensures Journaled(old(disk), old(logged), disk, logged)
    {
      hide Core, Removed;
      if inodes[i].addrs[NDIRECT] != 0 {
        ghost var dz := FreeEntries(i, o0);
        var x := inodes[i].addrs[NDIRECT];
        RemovedStep(sb, dz, inodes, owner, o0, i, NDIRECT);
        DetachDirect(sb, dz, inodes, owner, i, NDIRECT);
        OwnedUsed(sb, dz, inodes, owner, x);
        UnmarkBoth(sb, disk, dz, x, x);
        UnmarkedAt(sb, disk, x);
        var ok := BFree(x);
        assert ok;
        inodes := inodes[i := WithAddr(inodes[i], NDIRECT, 0)];
        owner := owner - {x};
        CoreFrame(sb, Unmark(Bm(sb), dz, x), disk, inodes, owner, x);
      } else {
        NoIndirectEntries(sb, disk, inodes, owner, o0, i);
        assert inodes[i].addrs[NDIRECT := 0] == inodes[i].addrs;
      }
    }

    /** itrunc: free every block of inode i and set its size to zero. No "freeing free block" panic
        can happen, exactly the bits of the inode's blocks are cleared, and no other file changes. */
    method ITrunc(i: nat)
      requires Owned() && i < sb.ninodes && FilesOk(disk, inodes, sb.ninodes) && SyncedBut(sb, disk, inodes, sb.ninodes)
      modifies this`disk, this`inodes, this`owner, this`logged
      ensures Valid()
      ensures inodes[i] == old(inodes)[i].(size := 0, addrs := FREE_INODE.addrs)
      ensures OthersSame(old(disk), old(inodes), disk, inodes, i)
      ensures Removed(old(owner), owner, i, NSLOTS)
      ensures Journaled(old(disk), old(logged), disk, logged)
    {
      hide Core, Removed, OthersSame, FilesOk, SyncedBut, Journaled, OnlyBitmap;
      ghost var d0, n0, o0, l0 := disk, inodes, owner, logged;
      OwnerSlots(sb, disk, inodes, owner);
      FreeDirect(i);
      ghost var d, l := disk, logged;
      FreeIndirect(i, o0);
      JournaledTwice(d0, l0, d, l, disk, logged);
      ghost var d1, l1 := disk, logged;
      assert inodes[i].addrs == FREE_INODE.addrs;
      BitmapTwice(sb, d0, d, d1);
      SetEmpty(i, d0, n0, o0);
      JournaledTwice(d0, l0, d1, l1, disk, logged);
    }

    /** The end of itrunc: the inode without blocks gets size zero and is written back. */
    method SetEmpty(i: nat, ghost d0: Disk, ghost n0: seq<Inode>, ghost o0: Owner)
      requires Owned() && i < sb.ninodes && inodes[i].addrs == FREE_INODE.addrs
      requires SuperOk(sb, d0) && InodesOk(sb, n0) && Core(sb, d0, n0, o0) && FilesOk(d0, n0, sb.ninodes) && SyncedBut(sb, d0, n0, sb.ninodes)
      requires inodes == n0[i := inodes[i]] && inodes[i] == n0[i].(addrs := inodes[i].addrs) && OnlyBitmap(sb, d0, disk)
      modifies this`disk, this`inodes, this`logged
      ensures Valid() && inodes == old(inodes)[i := old(inodes)[i].(size := 0)]
      ensures OthersSame(d0, n0, disk, inodes, i)
      ensures Journaled(old(disk), old(logged), disk, logged)
    {
      hide Core, OthersSame, FileOk, SyncedAt, Journaled;
      ghost var d1 := disk;
      var ino := inodes[i].(size := 0);
      CoreSameAddrs(sb, disk, inodes, owner, i, ino);
      inodes := inodes[i := ino];
      Truncated(sb, d0, n0, o0, d1, inodes, i);
      SyncedFrame(sb, d0, n0, d1, inodes, i);
      IUpdate(i);
      AfterUpdate(sb, d0, n0, d1, inodes, owner, disk, i);
    }

    /** iput: drop one of ref references; the last one to an unlinked inode frees it and its blocks. */
    method IPut(i: nat, ref: nat, valid: bool) returns (left: nat)
      requires Valid() && i < sb.ninodes && ref > 0
      modifies this`disk, this`inodes, this`owner, this`logged
      ensures Valid() && left == ref - 1
      ensures OthersSame(old(disk), old(inodes), disk, inodes, i)
      ensures ref == 1 && valid && old(inodes)[i].nlink == 0 ==>
                && Removed(old(owner), owner, i, NSLOTS)
                && inodes[i] == old(inodes)[i].(kind := 0, size := 0, addrs := FREE_INODE.addrs)
      ensures !(ref == 1 && valid && old(inodes)[i].nlink == 0) ==>
                disk == old(disk) && inodes == old(inodes) && owner == old(owner)
      ensures Journaled(old(disk), old(logged), disk, logged)
    {
      hide Core, Removed, OthersSame, FileOk, SyncedAt;
      AllSame(disk, inodes, sb.ninodes, i);
      if ref == 1 && valid && inodes[i].nlink == 0 {
        ghost var d0, n0 := disk, inodes;
        ITrunc(i);
        SetKind(i, inodes[i].(kind := 0), d0, n0);
      }
      return ref - 1;
    }

    /** Change fields of an inode without blocks and write it back. */
    method SetKind(i: nat, ino: Inode, ghost d0: Disk, ghost n0: seq<Inode>)
      requires Valid() && i < sb.ninodes && ino.addrs == inodes[i].addrs == FREE_INODE.addrs && ino.size == 0
      requires OthersSame(d0, n0, disk, inodes, i) && |n0| == |inodes|
      modifies this`disk, this`inodes, this`logged
      ensures Valid() && inodes == old(inodes)[i := ino] && OthersSame(d0, n0, disk, inodes, i)
      ensures Journaled(old(disk), old(logged), disk, logged)
    {
      hide Core, OthersSame, FileOk, SyncedAt;
      ghost var n1 := inodes;
      CoreSameAddrs(sb, disk, inodes, owner, i, ino);
      inodes := inodes[i := ino];
      KindSet(sb, disk, d0, n0, n1, inodes, i);
      ghost var d1 := disk;
      SyncedFrame(sb, d1, n1, d1, inodes, i);
      IUpdate(i);
      AfterUpdate(sb, d0, n0, d1, inodes, owner, disk, i);
    }

    /** ialloc: the first free inode, cleared and given a type; 0 if there is none. */
    method IAlloc(kind: short) returns (inum: nat)
      requires Valid() && kind != 0
      modifies this`disk, this`inodes, this`owner, this`logged
      ensures Valid()
      ensures inum == 0 ==> disk == old(disk) && inodes == old(inodes)
                            && forall j :: 1 <= j < sb.ninodes ==> inodes[j].kind != 0
      ensures inum != 0 ==> inum < sb.ninodes && old(inodes)[inum].kind == 0
                            && (forall j :: 1 <= j < inum ==> old(inodes)[j].kind != 0)
                            && inodes == old(inodes)[inum := FREE_INODE.(kind := kind)]
                            && OthersSame(old(disk), old(inodes), disk, inodes, inum)
      ensures Journaled(old(disk), old(logged), disk, logged)
    {
      hide Core, OthersSame, FileOk, SyncedAt;
      inum := FindInode();
      if inum != 0 {
        AllSame(disk, inodes, sb.ninodes, inum);
        FreeIsEmpty(disk, inodes[inum]);
        SetKind(inum, FREE_INODE.(kind := kind), disk, inodes);
      }
    }

    /** The scan of ialloc over the inode blocks. */
    method FindInode() returns (inum: nat)
      requires Valid()
      ensures inum == 0 ==> forall j :: 1 <= j < sb.ninodes ==> inodes[j].kind != 0
      ensures inum != 0 ==> inum < sb.ninodes && inodes[inum].kind == 0 && forall j :: 1 <= j < inum ==> inodes[j].kind != 0
    {
      hide Core, FileOk;
      inum := 1;
      while inum < sb.ninodes
        invariant 1 <= inum
        invariant forall j :: 1 <= j < inum && j < sb.ninodes ==> inodes[j].kind != 0
      {
        IBlockInRange(sb, disk, inum);
        assert SyncedAt(sb, disk, inodes, inum);
        var dip := GetInode(disk[IBlock(sb, inum)], inum % IPB);
        if dip.kind == 0 {
          return;
        }
        inum := inum + 1;
      }
      return 0;
    }
  }

  lemma NowSynced(sb: Super, d: Disk, n: seq<Inode>, i: nat)
    requires SuperOk(sb, d) && InodesOk(sb, n) && i < |n| && SyncedBut(sb, d, n, i)
    ensures SuperOk(sb, FsState.Updated(sb, d, i, n[i])) && SyncedBut(sb, FsState.Updated(sb, d, i, n[i]), n, sb.ninodes)
  {
    hide SyncedAt;
    forall j: nat | j < |n| ensures SyncedAt(sb, FsState.Updated(sb, d, i, n[i]), n, j) {
      UpdatedSynced(sb, d, n, i, j);
    }
  }

  lemma FreeIsEmpty(d: Disk, ino: Inode)
    requires FileOk(d, ino) && ino.kind == 0
    ensures ino.addrs == FREE_INODE.addrs
  {
  }

  lemma KindSet(sb: Super, d: Disk, d0: Disk, n0: seq<Inode>, n1: seq<Inode>, n: seq<Inode>, i: nat)
    requires FilesOk(d, n1, sb.ninodes) && OthersSame(d0, n0, d, n1, i) && i < |n0| == |n1| == |n|
    requires n == n1[i := n[i]] && n[i].addrs == FREE_INODE.addrs && n[i].size == 0
    ensures FilesOk(d, n, sb.ninodes) && OthersSame(d0, n0, d, n, i)
  {
    forall j: nat | j < |n| && j != i ensures SameFile(d0, n0, d, n, j) {
      assert SameFile(d0, n0, d, n1, j);
    }
    forall j: nat | j < |n| ensures FileOk(d, n[j]) {
      assert j != i ==> FileOk(d, n1[j]);
    }
  }

  /** After all blocks of inode i are gone the other files are as they were. */
  lemma Truncated(sb: Super, d0: Disk, n0: seq<Inode>, o0: Owner, d: Disk, n: seq<Inode>, i: nat)
    requires Core(sb, d0, n0, o0) && FilesOk(d0, n0, sb.ninodes) && OnlyBitmap(sb, d0, d) && i < |n0| == |n|
    requires n == n0[i := n[i]] && n[i].size == 0 && n[i].addrs == FREE_INODE.addrs
    ensures FilesOk(d, n, sb.ninodes) && OthersSame(d0, n0, d, n, i)
  {
    forall j: nat | j < |n| && j != i ensures SameFile(d0, n0, d, n, j) {
      assert FileOk(d0, n0[j]);
      FileFrame(sb, d0, n0, o0, d, j, n0[j]);
    }
    forall j: nat | j < |n| ensures FileOk(d, n[j]) {
      if j != i {
        assert SameFile(d0, n0, d, n, j);
      }
    }
  }

  /** Once every slot of an inode is freed, exactly its bits are clear. */
  lemma ExactlyFreed(sb: Super, d: Disk, n: seq<Inode>, o: Owner, o0: Owner, i: nat, b: nat)
    requires Core(sb, d, n, o) && Removed(o0, o, i, NSLOTS) && b < sb.size
    requires forall c :: c in o0 ==> o0[c].idx < NSLOTS
    ensures Used(Bm(sb), d, b) <==> b < sb.datastart || (b in o0 && o0[b].inum != i)
  {
  }

  lemma ZeroNone(a: Block)
    ensures ZeroBelow(a, a, 0)
  {
  }

  lemma ZeroAt(a: Block, z: Block, k: nat)
    requires k < NINDIRECT && ZeroBelow(a, z, k)
    ensures Word(z, k) == Word(a, k)
  {
  }

  lemma AllZero(a: Block, dz: Disk, ino: Inode)
    requires InodeOk(ino) && ino.addrs[NDIRECT] < |dz| && ZeroBelow(a, dz[ino.addrs[NDIRECT]], NINDIRECT)
    ensures forall t: nat :: NDIRECT < t < NSLOTS ==> Ref(dz, ino, t) == 0
  {
  }

  /** Without an indirect block only the direct slots had blocks. */
  lemma NoIndirectEntries(sb: Super, d: Disk, n: seq<Inode>, o: Owner, o0: Owner, i: nat)
    requires Core(sb, d, n, o) && i < |n| && Removed(o0, o, i, NDIRECT) && n[i].addrs[NDIRECT] == 0
    ensures Removed(o0, o, i, NSLOTS)
  {
    forall b | b in o ensures o[b].inum != i {
      OwnedNonzero(sb, d, o, b);
      assert Ref(d, n[o[b].inum], o[b].idx) == b;
    }
  }

  /** Only bitmap blocks differ. */
  ghost predicate OnlyBitmap(sb: Super, d: Disk, e: Disk) {
    |e| == |d| && forall x: nat :: x < |d| && !(sb.bmapstart <= x < sb.datastart) ==> e[x] == d[x]
  }

  lemma BitmapTwice(sb: Super, d: Disk, e: Disk, f: Disk)
    requires OnlyBitmap(sb, d, e) && OnlyBitmap(sb, e, f)
    ensures OnlyBitmap(sb, d, f)
  {
  }

  /** The first k slots of inode i have been emptied; nothing else has changed. */
  ghost predicate Emptied(n0: seq<Inode>, n: seq<Inode>, i: nat, k: nat) {
    && i < |n| == |n0| && n == n0[i := n[i]] && InodeOk(n[i]) && InodeOk(n0[i])
    && n[i] == n0[i].(addrs := n[i].addrs) && n[i].addrs[NDIRECT] == n0[i].addrs[NDIRECT] && k <= NDIRECT
    && forall t :: 0 <= t < k ==> n[i].addrs[t] == 0
  }

  lemma EmptiedNext(n0: seq<Inode>, n: seq<Inode>, i: nat, k: nat)
    requires Emptied(n0, n, i, k) && k < NDIRECT
    ensures Emptied(n0, n[i := WithAddr(n[i], k, 0)], i, k + 1)
  {
  }

  lemma OwnerSlots(sb: Super, d: Disk, n: seq<Inode>, o: Owner)
    requires Core(sb, d, n, o)
    ensures forall b :: b in o ==> o[b].idx < NSLOTS && sb.datastart <= b < sb.size
  {
  }

  lemma OwnedUsed(sb: Super, d: Disk, n: seq<Inode>, o: Owner, b: nat)
    requires Core(sb, d, n, o) && b in o
    ensures sb.datastart <= b < sb.size && Used(Bm(sb), d, b)
  {
  }

  lemma RemovedNone(o: Owner, i: nat)
    ensures Removed(o, o, i, 0)
  {
  }

  /** The largest piece filewrite hands to writei in one transaction. */
  const WRITEMAX: nat := (MAXOPBLOCKS - 1 - 1 - 2) / 2 * BSIZE

  /** What trying c consecutive blocks from offset off on may log, beyond the indirect block: a
      data block and a bitmap block each, but an unaligned first block is already mapped. */
  function Price(off: nat, c: nat): int {
    2 * c - if off % BSIZE != 0 && c > 0 then 1 else 0
  }

  lemma FileSize(d: Disk, ino: Inode)
    requires FileOk(d, ino)
    ensures InodeOk(ino) && ino.size <= MAXBYTES
  {
  }

  lemma SameBits(sb: Super, d: Disk, e: Disk)
    requires SuperOk(sb, d) && |e| == |d| && forall b: nat :: b < |d| && b >= sb.bmapstart ==> e[b] == d[b]
    ensures SuperOk(sb, e) && (Full(sb, d) ==> Full(sb, e))
  {
    forall x: nat | x < sb.size ensures Used(Bm(sb), e, x) == Used(Bm(sb), d, x) {
      UsedFrame(Bm(sb), d, e, x);
    }
  }

  /** c blocks have been tried for the first tot of n bytes from offset off on. */
  ghost predicate Tried(off: nat, tot: nat, n: nat, c: nat) {
    && tot <= n
    && (tot == 0 ==> c == 0)
    && (tot > 0 ==> c == (off + tot - 1) / BSIZE - off / BSIZE + 1)
    && (tot < n ==> c == (off + tot) / BSIZE - off / BSIZE)
  }

  lemma TriedNone(off: nat, n: nat)
    ensures Tried(off, 0, n, 0)
  {
  }

  lemma TriedZero(off: nat, tot: nat, n: nat, c: nat)
    requires Tried(off, tot, n, c)
    ensures c == 0 ==> tot == 0
  {
  }

  lemma TriedNext(off: nat, tot: nat, m: nat, n: nat, c: nat)
    requires Tried(off, tot, n, c) && tot < n
    requires m == if n - tot < BSIZE - (off + tot) % BSIZE then n - tot else BSIZE - (off + tot) % BSIZE
    ensures Tried(off, tot + m, n, c + 1)
  {
  }

  /** A piece of at most WRITEMAX bytes touches at most four blocks, three if it starts on a
      block boundary. */
  lemma TriedBound(off: nat, tot: nat, n: nat, c: nat)
    requires Tried(off, tot, n, c)
    ensures n <= WRITEMAX && tot < n ==> Price(off, c + 1) <= 7
    ensures n <= WRITEMAX && tot == n ==> Price(off, c) <= 7
  {
  }

  lemma BytesLength(d: Disk, ino: Inode)
    requires InodeOk(ino) && ino.size <= MAXBYTES
    ensures |Bytes(d, ino)| == ino.size
  {
  }

  function Smaller(a: nat, b: nat): nat { if a > b then b else a }

  /** File i held was; the first w bytes of src have been written at off. A start beyond the end of
      the file writes nothing. */
  ghost predicate FileHas(d: Disk, n: seq<Inode>, i: nat, was: seq<byte>, off: nat, src: seq<byte>, w: nat) {
    && i < |n| && InodeOk(n[i]) && n[i].size <= MAXBYTES && w <= |src|
    && (off > |was| ==> w == 0 && Bytes(d, n[i]) == was)
    && (off <= |was| ==> Bytes(d, n[i]) == Splice(was, off, src[..w]))
  }

  /** filewrite at its start. */
  lemma NothingYet(d: Disk, n: seq<Inode>, k: nat, i: nat, off: nat, src: seq<byte>) returns (was: seq<byte>)
    requires |n| == k && i < k && FilesOk(d, n, k)
    ensures InodeOk(n[i]) && n[i].size <= MAXBYTES && was == Bytes(d, n[i]) && |was| == n[i].size
    ensures FileHas(d, n, i, was, off, src, 0) && OthersSame(d, n, d, n, i)
  {
    AllSame(d, n, k, i);
    FileSize(d, n[i]);
    BytesLength(d, n[i]);
    was := Bytes(d, n[i]);
    FileHasNothing(d, n, i, was, off, src);
  }

  lemma FileHasNothing(d: Disk, n: seq<Inode>, i: nat, was: seq<byte>, off: nat, src: seq<byte>)
    requires i < |n| && InodeOk(n[i]) && n[i].size <= MAXBYTES && was == Bytes(d, n[i])
    ensures FileHas(d, n, i, was, off, src, 0)
  {
  }

  /** Two writes one after the other are one longer write. */
  lemma SpliceTwice(was: seq<byte>, off: nat, src: seq<byte>, done: nat, r: nat)
    requires off <= |was| && done + r <= |src|
    ensures off + done <= |Splice(was, off, src[..done])|
    ensures Splice(Splice(was, off, src[..done]), off + done, src[done..done + r]) == Splice(was, off, src[..done + r])
  {
  }

  lemma SameTwice(d0: Disk, n0: seq<Inode>, d1: Disk, n1: seq<Inode>, d2: Disk, n2: seq<Inode>, i: nat)
    requires OthersSame(d0, n0, d1, n1, i) && OthersSame(d1, n1, d2, n2, i) && |n0| == |n1|
    ensures OthersSame(d0, n0, d2, n2, i)
  {
    forall j: nat | j < |n0| && j != i ensures SameFile(d0, n0, d2, n2, j) {
      assert SameFile(d0, n0, d1, n1, j) && SameFile(d1, n1, d2, n2, j);
    }
  }

  lemma AlreadyMapped(sb: Super, d: Disk, n: seq<Inode>, l: set<nat>, d': Disk, n': seq<Inode>, l': set<nat>, i: nat, s: nat, addr: nat)
    requires MapStep(sb, d, n, l, d', n', l', i, s, addr) && Ref(d, n[i], s) != 0
    ensures d' == d && n' == n && l' == l && addr == Ref(d, n[i], s)
  {
  }

  lemma InDisk(sb: Super, d: Disk, n: seq<Inode>, o: Owner, i: nat, s: nat)
    requires Core(sb, d, n, o) && i < |n| && s < NSLOTS && Ref(d, n[i], s) != 0
    ensures Ref(d, n[i], s) < |d|
  {
    assert Points(d, n[i], o, i);
  }

  /** Bytes of a file that lie in one block. */
  lemma BlockBytes(d: Disk, ino: Inode, at: nat, m: nat)
    requires FileOk(d, ino) && at + m <= ino.size && m > 0 && at % BSIZE + m <= BSIZE
    requires 0 < Ref(d, ino, ByteSlot(at)) < |d|
    ensures Bytes(d, ino)[at..at + m] == d[Ref(d, ino, ByteSlot(at))][at % BSIZE..at % BSIZE + m]
  {
    var r := Ref(d, ino, ByteSlot(at));
    var a, b := Bytes(d, ino)[at..at + m], d[r][at % BSIZE..at % BSIZE + m];
    forall k | 0 <= k < m ensures a[k] == b[k] {
      assert (at + k) / BSIZE == at / BSIZE && (at + k) % BSIZE == at % BSIZE + k;
      assert ByteSlot(at + k) == ByteSlot(at);
    }
  }

  lemma PriceStep(off: nat, c: nat)
    ensures c > 0 ==> Price(off, c + 1) == Price(off, c) + 2
    ensures c == 0 ==> Price(off, c) == 0 && Price(off, c + 1) == if off % BSIZE != 0 then 1 else 2
  {
  }

  lemma CostAtLeast(ino: Inode, logged: set<nat>)
    requires InodeOk(ino)
    ensures |logged| <= Cost(ino, logged)
  {
  }

  lemma EmptyCost(ino: Inode, logged: set<nat>)
    requires InodeOk(ino)
    ensures logged == {} ==> Cost(ino, logged) <= 2
  {
  }

  /** The block of an unaligned offset inside or at the end of a file is mapped. */
  lemma FirstMapped(d: Disk, ino: Inode, off: nat)
    requires FileOk(d, ino) && off <= ino.size
    ensures off % BSIZE != 0 && off < MAXBYTES ==> Ref(d, ino, ByteSlot(off)) != 0
  {
    if off % BSIZE != 0 && off < MAXBYTES {
      assert ByteSlot(off - 1) == ByteSlot(off);
      assert Ref(d, ino, ByteSlot(off - 1)) != 0;
    }
  }

  lemma OnlyFileRefl(d: Disk, n: seq<Inode>, o: Owner, i: nat)
    requires i < |n|
    ensures OnlyFile(d, n, o, d, n, o, i)
  {
  }

  lemma OnlyFileInodes(d0: Disk, n0: seq<Inode>, o0: Owner, d: Disk, n: seq<Inode>, o: Owner, i: nat)
    requires OnlyFile(d0, n0, o0, d, n, o, i)
    ensures |n| == |n0| && |d| == |d0| && (forall j :: 0 <= j < |n0| && j != i ==> n[j] == n0[j])
    ensures n[i] == n0[i].(addrs := n[i].addrs)
  {
  }

  lemma AllSame(d: Disk, n: seq<Inode>, k: nat, i: nat)
    requires FilesOk(d, n, k)
    ensures OthersSame(d, n, d, n, i)
    ensures i < k ==> FileOk(d, n[i])
  {
  }

  lemma SyncedFrame(sb: Super, d0: Disk, n0: seq<Inode>, d: Disk, n: seq<Inode>, i: nat)
    requires SuperOk(sb, d0) && SuperOk(sb, d) && |n| == |n0| && SyncedBut(sb, d0, n0, sb.ninodes)
    requires forall x: nat :: x < sb.bmapstart ==> d[x] == d0[x]
    requires forall j :: 0 <= j < |n0| && j != i ==> n[j] == n0[j]
    ensures SyncedBut(sb, d, n, i)
  {
    forall j: nat | j < |n| && j != i ensures SyncedAt(sb, d, n, j) {
      assert SyncedAt(sb, d0, n0, j);
      IBlockInRange(sb, d0, j);
    }
  }

  lemma AfterUpdate(sb: Super, d0: Disk, n0: seq<Inode>, d: Disk, n: seq<Inode>, o: Owner, e: Disk, i: nat)
    requires Core(sb, d, n, o) && FilesOk(d, n, sb.ninodes) && |e| == |d| && i < |n0| == |n|
    requires OthersSame(d0, n0, d, n, i)
    requires forall b: nat :: b < |d| && b >= sb.bmapstart ==> e[b] == d[b]
    ensures FilesOk(e, n, sb.ninodes) && OthersSame(d0, n0, e, n, i) && SameFile(d, n, e, n, i)
  {
    forall j: nat | j < |n| ensures SameFile(d, n, e, n, j) {
      FilesFrame(sb, d, n, o, e, j);
    }
    hide FileOk, Bytes;
    forall j: nat | j < |n| && j != i ensures SameFile(d0, n0, e, n, j) {
      assert SameFile(d0, n0, d, n, j) && SameFile(d, n, e, n, j);
    }
    forall j: nat | j < |n| ensures FileOk(e, n[j]) {
      assert SameFile(d, n, e, n, j);
    }
  }

  /** After bmap, before the copy: nothing has been written yet. */
  lemma ChunkMapped(sb: Super, d0: Disk, n0: seq<Inode>, o0: Owner, d: Disk, n: seq<Inode>, o: Owner, i: nat, at: nat)
    requires i < |n0| == |n| && InodeOk(n0[i]) && InodeOk(n[i]) && at < MAXBYTES
    requires Core(sb, d0, n0, o0) && Core(sb, d, n, o) && Grown(d0, n0, o0, d, n, o, i)
    ensures OnlyFile(d0, n0, o0, d, n, o, i) && BytesWritten(d0, n0[i], d, n[i], at, [])
  {
    GrownIsOnlyFile(d0, n0, o0, d, n, o, i);
    NothingWritten(d0, n0[i], at);
    WrittenThenGrown(sb, d0, n0[i], d0, n0, o0, d, n, o, i, at, []);
    hide Core, Grown, OnlyFile, BytesWritten;
  }

  lemma ChunkPrice(sb: Super, d0: Disk, n0: seq<Inode>, l0: set<nat>, d: Disk, n: seq<Inode>, l: set<nat>, i: nat, at: nat, addr: nat)
    requires i < |n0| == |n| && InodeOk(n0[i]) && InodeOk(n[i]) && at < MAXBYTES && SuperOk(sb, d0) && SuperOk(sb, d)
    requires MapStep(sb, d0, n0, l0, d, n, l, i, ByteSlot(at), addr)
    ensures forall x: nat :: x < sb.bmapstart ==> d[x] == d0[x]
    ensures Ref(d, n[i], ByteSlot(at)) == addr && (addr == 0 ==> Full(sb, d))
    ensures Cost(n[i], l) + (if addr in l then 0 else 1) <= Cost(n0[i], l0) + if Ref(d0, n0[i], ByteSlot(at)) == 0 then 2 else 1
  {
    hide Cost, Ref;
  }

  lemma ChunkStored(sb: Super, d0: Disk, n0: seq<Inode>, o0: Owner, d: Disk, n: seq<Inode>, o: Owner, i: nat, at: nat, chunk: seq<byte>)
    requires InodesOk(sb, n0) && i < sb.ninodes && Core(sb, d, n, o)
    requires OnlyFile(d0, n0, o0, d, n, o, i)
    requires at < MAXBYTES && at % BSIZE + |chunk| <= BSIZE && BytesWritten(d0, n0[i], d, n[i], at, [])
    requires Ref(d, n[i], ByteSlot(at)) != 0
    ensures sb.datastart <= Ref(d, n[i], ByteSlot(at)) < |d|
    ensures var e := Stored(d, n[i], at, chunk);
            && SuperOk(sb, e) && Core(sb, e, n, o) && OnlyFile(d0, n0, o0, e, n, o, i)
            && BytesWritten(d0, n0[i], e, n[i], at, chunk)
            && e == d[Ref(d, n[i], ByteSlot(at)) := Patched(d[Ref(d, n[i], ByteSlot(at))], at % BSIZE, chunk)]
  {
    StoredCore(sb, d, n, o, i, at, chunk);
    StoredOnlyFile(sb, d, n, o, i, at, chunk);
    var e := Stored(d, n[i], at, chunk);
    WrittenThenStored(sb, d0, n0[i], d, n, o, i, at, [], at, chunk, e);
    assert [] + chunk == chunk;
    OnlyFileTwice(d0, n0, o0, d, n, o, e, n, o, i);
    hide Core, OnlyFile, BytesWritten, Ref;
  }

  lemma NothingWritten(d: Disk, ino: Inode, at: nat)
    requires InodeOk(ino) && at <= MAXBYTES
    ensures BytesWritten(d, ino, d, ino, at, [])
  {
  }

  /** Logging one more block. */
  lemma ChunkCost(ino: Inode, logged: set<nat>, addr: nat)
    requires InodeOk(ino)
    ensures Cost(ino, logged + {addr}) <= Cost(ino, logged) + if addr in logged then 0 else 1
  {
  }

  /** A slot that has its block answers it and changes nothing. */
  lemma Mapped(sb: Super, d: Disk, inodes: seq<Inode>, owner: Owner, logged: set<nat>, i: nat, s: nat)
    requires Core(sb, d, inodes, owner) && i < |inodes| && s < NSLOTS && Ref(d, inodes[i], s) != 0
    ensures Grown(d, inodes, owner, d, inodes, owner, i)
    ensures MapStep(sb, d, inodes, logged, d, inodes, logged, i, s, Ref(d, inodes[i], s))
  {
  }

  /** An empty slot on a full disk answers 0 and nothing changes. */
  lemma Unmapped(sb: Super, d: Disk, inodes: seq<Inode>, owner: Owner, logged: set<nat>, i: nat, s: nat)
    requires Core(sb, d, inodes, owner) && i < |inodes| && s < NSLOTS && Ref(d, inodes[i], s) == 0 && Full(sb, d)
    ensures Grown(d, inodes, owner, d, inodes, owner, i)
    ensures MapStep(sb, d, inodes, logged, d, inodes, logged, i, s, 0)
  {
  }

  /** The disk was full before the indirect block could be allocated. */
  lemma NoIndirect(sb: Super, d: Disk, inodes: seq<Inode>, logged: set<nat>,
                   d1: Disk, inodes1: seq<Inode>, logged1: set<nat>, i: nat, s: nat)
    requires MapStep(sb, d, inodes, logged, d1, inodes1, logged1, i, NDIRECT, 0) && NDIRECT < s < NSLOTS
    ensures MapStep(sb, d, inodes, logged, d1, inodes1, logged1, i, s, 0)
  {
  }

  /** A fresh indirect block has no entries. */
  lemma EmptyIndirect(sb: Super, d: Disk, inodes: seq<Inode>, logged: set<nat>,
                      d1: Disk, inodes1: seq<Inode>, logged1: set<nat>, i: nat, x: nat, s: nat)
    requires MapStep(sb, d, inodes, logged, d1, inodes1, logged1, i, NDIRECT, x) && x != 0 && NDIRECT < s < NSLOTS
    requires inodes[i].addrs[NDIRECT] == 0
    ensures inodes1[i].addrs[NDIRECT] == x && Ref(d1, inodes1[i], s) == 0
  {
  }

  /** A fresh indirect block, then a fresh block in it. */
  lemma MapTwice(sb: Super, d: Disk, inodes: seq<Inode>, logged: set<nat>, d1: Disk, inodes1: seq<Inode>, logged1: set<nat>,
                 d2: Disk, inodes2: seq<Inode>, logged2: set<nat>, i: nat, x: nat, s: nat, addr: nat)
    requires MapStep(sb, d, inodes, logged, d1, inodes1, logged1, i, NDIRECT, x) && x != 0 && NDIRECT < s < NSLOTS
    requires MapStep(sb, d1, inodes1, logged1, d2, inodes2, logged2, i, s, addr) && inodes[i].addrs[NDIRECT] == 0
    ensures MapStep(sb, d, inodes, logged, d2, inodes2, logged2, i, s, addr)
  {
  }

  lemma AttachedIndirect(sb: Super, d: Disk, inodes: seq<Inode>, owner: Owner, logged: set<nat>, i: nat, k: nat, b: nat)
    requires Core(sb, d, inodes, owner) && i < |inodes| && k < NINDIRECT && inodes[i].addrs[NDIRECT] != 0
    requires sb.datastart <= b < sb.size && b !in owner && Ref(d, inodes[i], NDIRECT + 1 + k) == 0
    ensures inodes[i].addrs[NDIRECT] < |d|
    ensures var x := inodes[i].addrs[NDIRECT];
            var e := WithEntry(Allocated(sb, d, b), x, k, b);
            && Grown(d, inodes, owner, e, inodes, owner[b := Slot(i, NDIRECT + 1 + k)], i)
            && MapStep(sb, d, inodes, logged, e, inodes, logged + {BBlock(Bm(sb), b), b} + {x}, i, NDIRECT + 1 + k, b)
  {
    var x := inodes[i].addrs[NDIRECT];
    IndirectOwned(sb, d, inodes, owner, i);
    EntryGrown(sb, d, inodes, owner, i, k, b);
    EntryMapped(sb, d, inodes, logged, i, k, b);
    hide Core, Grown, MapStep;
  }

  lemma EntryGrown(sb: Super, d: Disk, inodes: seq<Inode>, owner: Owner, i: nat, k: nat, b: nat)
    requires Core(sb, d, inodes, owner) && i < |inodes| && k < NINDIRECT && 0 < inodes[i].addrs[NDIRECT] < |d|
    requires sb.datastart <= b < sb.size && b !in owner
    ensures Grown(d, inodes, owner, WithEntry(Allocated(sb, d, b), inodes[i].addrs[NDIRECT], k, b), inodes,
                  owner[b := Slot(i, NDIRECT + 1 + k)], i)
  {
    var x := inodes[i].addrs[NDIRECT];
    AllocatedAt(sb, d, b);
    IndirectOwned(sb, d, inodes, owner, i);
    forall y | y in owner && y != x ensures y < |d| && WithEntry(Allocated(sb, d, b), x, k, b)[y] == d[y] {
      OwnedNonzero(sb, d, owner, y);
    }
  }

  lemma EntryMapped(sb: Super, d: Disk, inodes: seq<Inode>, logged: set<nat>, i: nat, k: nat, b: nat)
    requires SuperOk(sb, d) && i < |inodes| && InodeOk(inodes[i]) && k < NINDIRECT
    requires sb.datastart <= inodes[i].addrs[NDIRECT] < |d| && inodes[i].addrs[NDIRECT] != b
    requires sb.datastart <= b < sb.size && Ref(d, inodes[i], NDIRECT + 1 + k) == 0
    ensures MapStep(sb, d, inodes, logged, WithEntry(Allocated(sb, d, b), inodes[i].addrs[NDIRECT], k, b), inodes,
                    logged + {BBlock(Bm(sb), b), b} + {inodes[i].addrs[NDIRECT]}, i, NDIRECT + 1 + k, b)
  {
    var x := inodes[i].addrs[NDIRECT];
    AllocatedAt(sb, d, b);
    WordOfSetWord(Allocated(sb, d, b)[x], k, b, k);
    var l := logged + {BBlock(Bm(sb), b), b};
    TwoMore(logged, BBlock(Bm(sb), b), b);
    AddOne(l, x);
    assert x in logged ==> l + {x} == l;
  }

  lemma TwoMore(s: set<nat>, x: nat, y: nat)
    ensures |s| <= |s + {x, y}| <= |s| + 2
  {
    AddOne(s, x);
    AddOne(s + {x}, y);
    assert s + {x, y} == s + {x} + {y};
  }

  lemma AttachedDirect(sb: Super, d: Disk, inodes: seq<Inode>, owner: Owner, logged: set<nat>, i: nat, s: nat, b: nat)
    requires Core(sb, d, inodes, owner) && i < |inodes| && s <= NDIRECT && inodes[i].addrs[s] == 0
    requires sb.datastart <= b < sb.size && b !in owner
    ensures var e, inodes' := Allocated(sb, d, b), inodes[i := WithAddr(inodes[i], s, b)];
            && Grown(d, inodes, owner, e, inodes', owner[b := Slot(i, s)], i)
            && MapStep(sb, d, inodes, logged, e, inodes', logged + {BBlock(Bm(sb), b), b}, i, s, b)
  {
    AllocatedAt(sb, d, b);
    TwoMore(logged, BBlock(Bm(sb), b), b);
    forall x | x in owner ensures x < |d| && Allocated(sb, d, b)[x] == d[x] {
      OwnedNonzero(sb, d, owner, x);
    }
  }
}
