/** What a consistent file system is: every block slot of every inode, the free
    bitmap, and the bytes of each file. */
module FsState {
  import opened Common
  import opened Blocks
  import opened Bitmap
  import opened Inodes

  /** The superblock; data blocks start after the bitmap. */
  datatype Super = Super(size: nat, ninodes: nat, inodestart: nat, bmapstart: nat, datastart: nat)

  predicate SuperOk(sb: Super, d: Disk) {
    && 0 < sb.size == |d| <= 0x1_0000_0000
    && 0 < sb.inodestart
    && sb.inodestart + sb.ninodes / IPB < sb.bmapstart
    && sb.bmapstart + (sb.size - 1) / BPB < sb.datastart <= sb.size
  }

  function Bm(sb: Super): Map {
    Map(sb.bmapstart, sb.size)
  }

  /** The block holding inode i. */
  function IBlock(sb: Super, i: nat): nat {
    i / IPB + sb.inodestart
  }

  lemma SuperMap(sb: Super, d: Disk)
    requires SuperOk(sb, d)
    ensures MapOk(Bm(sb), d)
  {
  }

  lemma IBlockInRange(sb: Super, d: Disk, i: nat)
    requires SuperOk(sb, d) && i < sb.ninodes
    ensures sb.inodestart <= IBlock(sb, i) < sb.bmapstart
  {
  }

  /** A place that can hold a block number: inode and slot. Slots 0..11 are direct, slot 12
      points to the indirect block, slot 13 + k is entry k of the indirect block. */
  datatype Slot = Slot(inum: nat, idx: nat)
  type Owner = map<nat, Slot>

  /** The slot of the bn-th block of a file. */
  function SlotOf(bn: nat): nat {
    if bn < NDIRECT then bn else bn + 1
  }

  /** The block number in slot s of an inode; 0 if none. */
  function Ref(d: Disk, ino: Inode, s: nat): word
    requires InodeOk(ino) && s < NSLOTS
  {
    if s <= NDIRECT then ino.addrs[s]
    else if ino.addrs[NDIRECT] == 0 || ino.addrs[NDIRECT] >= |d| then 0
    else Word(d[ino.addrs[NDIRECT]], s - NDIRECT - 1)
  }

  predicate InodesOk(sb: Super, inodes: seq<Inode>) {
    |inodes| == sb.ninodes && forall j :: 0 <= j < |inodes| ==> InodeOk(inodes[j])
  }

  /** In the bitmap exactly the metadata blocks and the owned blocks are in use. */
  ghost predicate BitsOk(sb: Super, d: Disk, owner: Owner)
    requires SuperOk(sb, d)
  {
    && (forall b: nat :: b < sb.size ==> (Used(Bm(sb), d, b) <==> b < sb.datastart || b in owner))
    && forall b :: b in owner ==> sb.datastart <= b < sb.size
  }

  /** Every block number in inode j is owned by the slot that holds it. */
  ghost predicate Points(d: Disk, ino: Inode, owner: Owner, j: nat)
    requires InodeOk(ino)
  {
    forall s: nat :: s < NSLOTS && Ref(d, ino, s) != 0 ==> Ref(d, ino, s) in owner && owner[Ref(d, ino, s)] == Slot(j, s)
  }

  /** Every owned block number is in the slot that owns it. */
  ghost predicate Backed(d: Disk, inodes: seq<Inode>, owner: Owner)
    requires forall j :: 0 <= j < |inodes| ==> InodeOk(inodes[j])
  {
    forall b :: b in owner ==>
      owner[b].inum < |inodes| && owner[b].idx < NSLOTS && Ref(d, inodes[owner[b].inum], owner[b].idx) == b
  }

  /** Block ownership: slots and owned blocks are in one-to-one correspondence, and the
      bitmap marks exactly the owned blocks. */
  ghost predicate Core(sb: Super, d: Disk, inodes: seq<Inode>, owner: Owner) {
    && SuperOk(sb, d)
    && InodesOk(sb, inodes)
    && BitsOk(sb, d, owner)
    && (forall j: nat :: j < |inodes| ==> Points(d, inodes[j], owner, j))
    && Backed(d, inodes, owner)
  }

  /** Each block number occurs at most once across all slots of all inodes, lies in the
      data area and has its bit set. */
  lemma OwnedOnce(sb: Super, d: Disk, inodes: seq<Inode>, owner: Owner, i: nat, s: nat, j: nat, t: nat)
    requires Core(sb, d, inodes, owner)
    requires i < |inodes| && j < |inodes| && s < NSLOTS && t < NSLOTS
    requires Ref(d, inodes[i], s) != 0
    ensures sb.datastart <= Ref(d, inodes[i], s) < sb.size && Used(Bm(sb), d, Ref(d, inodes[i], s))
    ensures Ref(d, inodes[i], s) == Ref(d, inodes[j], t) ==> i == j && s == t
  {
    assert Points(d, inodes[i], owner, i) && Points(d, inodes[j], owner, j);
  }

  /** No leaks: a data block marked in use is in some slot. */
  lemma NoLeak(sb: Super, d: Disk, inodes: seq<Inode>, owner: Owner, b: nat) returns (i: nat, s: nat)
    requires Core(sb, d, inodes, owner) && sb.datastart <= b < sb.size && Used(Bm(sb), d, b)
    ensures i < |inodes| && s < NSLOTS && Ref(d, inodes[i], s) == b
  {
    i, s := owner[b].inum, owner[b].idx;
  }

  /** Slots of an inode depend on the inode and its indirect block only. */
  lemma RefFrame(d: Disk, e: Disk, ino: Inode, s: nat)
    requires InodeOk(ino) && s < NSLOTS && |e| == |d|
    requires ino.addrs[NDIRECT] != 0 && ino.addrs[NDIRECT] < |d| ==> e[ino.addrs[NDIRECT]] == d[ino.addrs[NDIRECT]]
    ensures Ref(e, ino, s) == Ref(d, ino, s)
  {
  }

  /** The indirect block of an inode is owned by its slot 12. */
  lemma IndirectOwned(sb: Super, d: Disk, inodes: seq<Inode>, owner: Owner, j: nat)
    requires Core(sb, d, inodes, owner) && j < |inodes|
    ensures var x := inodes[j].addrs[NDIRECT];
            x != 0 ==> x in owner && owner[x] == Slot(j, NDIRECT) && sb.datastart <= x < sb.size
  {
    assert Points(d, inodes[j], owner, j);
    assert Ref(d, inodes[j], NDIRECT) == inodes[j].addrs[NDIRECT];
  }

  /** The disk after balloc has taken block b: marked and zeroed. */
  function Allocated(sb: Super, d: Disk, b: nat): (r: Disk)
    requires SuperOk(sb, d) && b < sb.size
    ensures |r| == |d|
  {
    var marked := Mark(Bm(sb), d, b);
    marked[b := ZeroBlock()]
  }

  /** Taking a free data block changes only its bitmap block and itself. */
  lemma AllocatedAt(sb: Super, d: Disk, b: nat)
    requires SuperOk(sb, d) && sb.datastart <= b < sb.size
    ensures SuperOk(sb, Allocated(sb, d, b))
    ensures forall x: nat :: x < |d| && x != b && x != BBlock(Bm(sb), b) ==> Allocated(sb, d, b)[x] == d[x]
    ensures Allocated(sb, d, b)[b] == ZeroBlock()
    ensures sb.bmapstart <= BBlock(Bm(sb), b) < sb.datastart
  {
    SuperMap(sb, d);
    BBlockInRange(Bm(sb), d, b);
    DivMono(b, sb.size - 1);
  }

  lemma AllocatedUsed(sb: Super, d: Disk, b: nat, c: nat)
    requires SuperOk(sb, d) && sb.datastart <= b < sb.size && c < sb.size
    ensures SuperOk(sb, Allocated(sb, d, b))
    ensures Used(Bm(sb), Allocated(sb, d, b), c) <==> c == b || Used(Bm(sb), d, c)
  {
    SuperMap(sb, d);
    MarkAt(Bm(sb), d, b, c);
    UsedFrame(Bm(sb), Mark(Bm(sb), d, b), Allocated(sb, d, b), c);
  }

  /** Is every block of the disk in use? */
  ghost predicate Full(sb: Super, d: Disk)
    requires SuperOk(sb, d)
  {
    forall x: nat :: x < sb.size ==> Used(Bm(sb), d, x)
  }

  /** Blocks logged so far plus what logging the indirect block may still add. */
  ghost function Cost(ino: Inode, logged: set<nat>): nat
    requires InodeOk(ino)
  {
    |logged| + if ino.addrs[NDIRECT] == 0 then 2 else if ino.addrs[NDIRECT] in logged then 0 else 1
  }

  /** Slot s of inode i has been asked for its block. It answers addr: the block it had, a fresh
      zeroed and logged block, or 0 on a full disk. */
  ghost predicate MapStep(sb: Super, d: Disk, inodes: seq<Inode>, logged: set<nat>,
                          d': Disk, inodes': seq<Inode>, logged': set<nat>, i: nat, s: nat, addr: nat)
  {
    && SuperOk(sb, d) && SuperOk(sb, d')
    && i < |inodes| == |inodes'| && InodeOk(inodes[i]) && InodeOk(inodes'[i]) && s < NSLOTS
    && (forall x: nat :: x < sb.bmapstart ==> d'[x] == d[x])
    && Ref(d', inodes'[i], s) == addr
    && (Ref(d, inodes[i], s) != 0 ==> d' == d && inodes' == inodes && logged' == logged)
    && (Ref(d, inodes[i], s) == 0 && addr != 0 ==> addr < |d'| && d'[addr] == ZeroBlock() && addr in logged')
    && (addr == 0 ==> Full(sb, d'))
    && logged <= logged'
    && Cost(inodes'[i], logged')
       <= Cost(inodes[i], logged) + if Ref(d, inodes[i], s) == 0 && addr != 0 && s != NDIRECT then 2 else 0
  }

  // ----- giving a fresh block to a slot -----

  /** Inode ino with block number b in slot s, s not in the indirect block. */
  function WithAddr(ino: Inode, s: nat, b: word): Inode
    requires InodeOk(ino) && s <= NDIRECT
  {
    ino.(addrs := ino.addrs[s := b])
  }

  lemma BitsAfterAlloc(sb: Super, d: Disk, e: Disk, owner: Owner, b: nat, slot: Slot)
    requires SuperOk(sb, d) && BitsOk(sb, d, owner) && sb.datastart <= b < sb.size && |e| == |d|
    requires forall x: nat :: sb.bmapstart <= x < sb.datastart ==> e[x] == Allocated(sb, d, b)[x]
    ensures SuperOk(sb, e) && BitsOk(sb, e, owner[b := slot])
  {
    var a := Allocated(sb, d, b);
    AllocatedAt(sb, d, b);
    SuperMap(sb, a);
    forall c: nat | c < sb.size
      ensures Used(Bm(sb), e, c) <==> c < sb.datastart || c in owner[b := slot]
    {
      AllocatedUsed(sb, d, b, c);
      UsedFrame(Bm(sb), a, e, c);
    }
  }

  lemma OwnedNonzero(sb: Super, d: Disk, owner: Owner, c: nat)
    requires SuperOk(sb, d) && BitsOk(sb, d, owner) && c in owner
    ensures sb.datastart <= c < sb.size && c != 0
  {
  }

  /** Ownership after block b has entered slot s of inode i and no other slot has changed. */
  lemma SlotFilled(sb: Super, d: Disk, inodes: seq<Inode>, owner: Owner, e: Disk, inodes': seq<Inode>, i: nat, s: nat, b: nat)
    requires Core(sb, d, inodes, owner) && SuperOk(sb, e) && InodesOk(sb, inodes')
    requires i < |inodes| && s < NSLOTS && b !in owner && b != 0 && BitsOk(sb, e, owner[b := Slot(i, s)])
    requires forall j: nat, t: nat :: j < |inodes| && t < NSLOTS ==>
               Ref(e, inodes'[j], t) == if j == i && t == s then b else Ref(d, inodes[j], t)
    requires Ref(d, inodes[i], s) == 0
    ensures Core(sb, e, inodes', owner[b := Slot(i, s)])
  {
    hide Ref, SuperOk, BitsOk;
    var owner' := owner[b := Slot(i, s)];
    forall j: nat | j < |inodes'| ensures Points(e, inodes'[j], owner', j) {
      assert Points(d, inodes[j], owner, j);
    }
    forall c | c in owner'
      ensures owner'[c].inum < |inodes'| && owner'[c].idx < NSLOTS && Ref(e, inodes'[owner'[c].inum], owner'[c].idx) == c
    {
      if c != b {
        OwnedNonzero(sb, d, owner, c);
        assert Ref(d, inodes[owner[c].inum], owner[c].idx) == c;
      }
    }
  }

  /** A fresh block in a direct slot or as the indirect block. */
  lemma AttachDirect(sb: Super, d: Disk, inodes: seq<Inode>, owner: Owner, i: nat, s: nat, b: nat)
    requires Core(sb, d, inodes, owner) && i < |inodes| && s <= NDIRECT
    requires sb.datastart <= b < sb.size && b !in owner && Ref(d, inodes[i], s) == 0
    ensures Core(sb, Allocated(sb, d, b), inodes[i := WithAddr(inodes[i], s, b)], owner[b := Slot(i, s)])
  {
    var e, inodes' := Allocated(sb, d, b), inodes[i := WithAddr(inodes[i], s, b)];
    AllocatedAt(sb, d, b);
    BitsAfterAlloc(sb, d, e, owner, b, Slot(i, s));
    forall j: nat, t: nat | j < |inodes| && t < NSLOTS
      ensures Ref(e, inodes'[j], t) == if j == i && t == s then b else Ref(d, inodes[j], t)
    {
      IndirectOwned(sb, d, inodes, owner, j);
      if j == i && s == NDIRECT && t > NDIRECT {
        ZeroWord(t - NDIRECT - 1);
      }
    }
    SlotFilled(sb, d, inodes, owner, e, inodes', i, s, b);
  }

  /** The disk after entry k of indirect block x is set to b. */
  function WithEntry(d: Disk, x: nat, k: nat, b: word): (e: Disk)
    requires x < |d| && k < NINDIRECT
    ensures |e| == |d|
  {
    d[x := SetWord(d[x], k, b)]
  }

  lemma EntryRef(sb: Super, d: Disk, inodes: seq<Inode>, owner: Owner, i: nat, s: nat, b: nat, j: nat, t: nat)
    requires Core(sb, d, inodes, owner) && i < |inodes| && NDIRECT < s < NSLOTS && j < |inodes| && t < NSLOTS
    requires sb.datastart <= b < sb.size && b !in owner && inodes[i].addrs[NDIRECT] != 0
    ensures inodes[i].addrs[NDIRECT] < |d|
    ensures Ref(WithEntry(Allocated(sb, d, b), inodes[i].addrs[NDIRECT], s - NDIRECT - 1, b), inodes[j], t)
         == if j == i && t == s then b else Ref(d, inodes[j], t)
  {
    IndirectOwned(sb, d, inodes, owner, i);
    IndirectOwned(sb, d, inodes, owner, j);
    AllocatedAt(sb, d, b);
    if t > NDIRECT {
      WordOfSetWord(d[inodes[i].addrs[NDIRECT]], s - NDIRECT - 1, b, t - NDIRECT - 1);
    }
  }

  /** A fresh block in a slot of the indirect block. */
  lemma AttachIndirect(sb: Super, d: Disk, inodes: seq<Inode>, owner: Owner, i: nat, s: nat, b: nat)
    requires Core(sb, d, inodes, owner) && i < |inodes| && NDIRECT < s < NSLOTS
    requires sb.datastart <= b < sb.size && b !in owner && Ref(d, inodes[i], s) == 0
    requires inodes[i].addrs[NDIRECT] != 0
    ensures inodes[i].addrs[NDIRECT] < |d|
    ensures Core(sb, WithEntry(Allocated(sb, d, b), inodes[i].addrs[NDIRECT], s - NDIRECT - 1, b), inodes, owner[b := Slot(i, s)])
  {
    var x, k := inodes[i].addrs[NDIRECT], s - NDIRECT - 1;
    IndirectOwned(sb, d, inodes, owner, i);
    AllocatedAt(sb, d, b);
    var e := WithEntry(Allocated(sb, d, b), x, k, b);
    BitsAfterAlloc(sb, d, e, owner, b, Slot(i, s));
    hide Ref, Points, Backed;
    forall j: nat, t: nat | j < |inodes| && t < NSLOTS
      ensures Ref(e, inodes[j], t) == if j == i && t == s then b else Ref(d, inodes[j], t)
    {
      EntryRef(sb, d, inodes, owner, i, s, b, j, t);
    }
    SlotFilled(sb, d, inodes, owner, e, inodes, i, s, b);
  }

  // ----- taking a block back from a slot -----

  /** Freeing a data block changes only its bitmap block. */
  lemma UnmarkedAt(sb: Super, d: Disk, b: nat)
    requires SuperOk(sb, d) && sb.datastart <= b < sb.size
    ensures SuperOk(sb, Unmark(Bm(sb), d, b))
    ensures forall x: nat :: x < |d| && x != BBlock(Bm(sb), b) ==> Unmark(Bm(sb), d, b)[x] == d[x]
    ensures sb.bmapstart <= BBlock(Bm(sb), b) < sb.datastart
  {
    BBlockInRange(Bm(sb), d, b);
    DivMono(b, sb.size - 1);
  }

  lemma BitsAfterFree(sb: Super, d: Disk, e: Disk, owner: Owner, b: nat)
    requires SuperOk(sb, d) && BitsOk(sb, d, owner) && b in owner && |e| == |d|
    requires forall x: nat :: sb.bmapstart <= x < sb.datastart ==> e[x] == Unmark(Bm(sb), d, b)[x]
    ensures SuperOk(sb, e) && BitsOk(sb, e, owner - {b})
  {
    var a := Unmark(Bm(sb), d, b);
    UnmarkedAt(sb, d, b);
    forall c: nat | c < sb.size
      ensures Used(Bm(sb), e, c) <==> c < sb.datastart || c in owner - {b}
    {
      UnmarkAt(Bm(sb), d, b, c);
      UsedFrame(Bm(sb), a, e, c);
    }
  }

  /** Ownership after slot s of inode i has been emptied and no other slot has changed. */
  lemma SlotEmptied(sb: Super, d: Disk, inodes: seq<Inode>, owner: Owner, e: Disk, inodes': seq<Inode>, i: nat, s: nat)
    requires Core(sb, d, inodes, owner) && SuperOk(sb, e) && InodesOk(sb, inodes')
    requires i < |inodes| && s < NSLOTS && Ref(d, inodes[i], s) != 0 && BitsOk(sb, e, owner - {Ref(d, inodes[i], s)})
    requires forall j: nat, t: nat :: j < |inodes| && t < NSLOTS ==>
               Ref(e, inodes'[j], t) == if j == i && t == s then 0 else Ref(d, inodes[j], t)
    ensures Core(sb, e, inodes', owner - {Ref(d, inodes[i], s)})
  {
    hide Ref, SuperOk, BitsOk;
    var b := Ref(d, inodes[i], s);
    var owner' := owner - {b};
    assert Points(d, inodes[i], owner, i);
    forall j: nat | j < |inodes'| ensures Points(e, inodes'[j], owner', j) {
      assert Points(d, inodes[j], owner, j);
    }
    forall c | c in owner'
      ensures owner'[c].inum < |inodes'| && owner'[c].idx < NSLOTS && Ref(e, inodes'[owner'[c].inum], owner'[c].idx) == c
    {
    }
  }

  /** Emptying a direct slot, or the pointer to an indirect block without entries. */
  lemma DetachDirect(sb: Super, d: Disk, inodes: seq<Inode>, owner: Owner, i: nat, s: nat)
    requires Core(sb, d, inodes, owner) && i < |inodes| && s <= NDIRECT && inodes[i].addrs[s] != 0
    requires s == NDIRECT ==> forall t: nat :: NDIRECT < t < NSLOTS ==> Ref(d, inodes[i], t) == 0
    ensures var b := inodes[i].addrs[s];
            b in owner && b < sb.size && Core(sb, Unmark(Bm(sb), d, b), inodes[i := WithAddr(inodes[i], s, 0)], owner - {b})
  {
    var b := inodes[i].addrs[s];
    assert Points(d, inodes[i], owner, i);
    assert Ref(d, inodes[i], s) == b;
    var e, inodes' := Unmark(Bm(sb), d, b), inodes[i := WithAddr(inodes[i], s, 0)];
    UnmarkedAt(sb, d, b);
    BitsAfterFree(sb, d, e, owner, b);
    forall j: nat, t: nat | j < |inodes| && t < NSLOTS
      ensures Ref(e, inodes'[j], t) == if j == i && t == s then 0 else Ref(d, inodes[j], t)
    {
      IndirectOwned(sb, d, inodes, owner, j);
    }
    SlotEmptied(sb, d, inodes, owner, e, inodes', i, s);
  }

  lemma FreedRef(sb: Super, d: Disk, inodes: seq<Inode>, owner: Owner, i: nat, s: nat, b: nat, j: nat, t: nat)
    requires Core(sb, d, inodes, owner) && i < |inodes| && NDIRECT < s < NSLOTS && j < |inodes| && t < NSLOTS
    requires sb.datastart <= b < sb.size && inodes[i].addrs[NDIRECT] != 0
    ensures inodes[i].addrs[NDIRECT] < |d|
    ensures Ref(WithEntry(Unmark(Bm(sb), d, b), inodes[i].addrs[NDIRECT], s - NDIRECT - 1, 0), inodes[j], t)
         == if j == i && t == s then 0 else Ref(d, inodes[j], t)
  {
    IndirectOwned(sb, d, inodes, owner, i);
    IndirectOwned(sb, d, inodes, owner, j);
    UnmarkedAt(sb, d, b);
    if t > NDIRECT {
      WordOfSetWord(d[inodes[i].addrs[NDIRECT]], s - NDIRECT - 1, 0, t - NDIRECT - 1);
    }
  }

  /** Emptying a slot of the indirect block. */
  lemma DetachIndirect(sb: Super, d: Disk, inodes: seq<Inode>, owner: Owner, i: nat, s: nat)
    requires Core(sb, d, inodes, owner) && i < |inodes| && NDIRECT < s < NSLOTS && Ref(d, inodes[i], s) != 0
    ensures var b, x := Ref(d, inodes[i], s), inodes[i].addrs[NDIRECT];
            && b in owner && b < sb.size && x < |d|
            && Core(sb, WithEntry(Unmark(Bm(sb), d, b), x, s - NDIRECT - 1, 0), inodes, owner - {b})
  {
    var b, x, k := Ref(d, inodes[i], s), inodes[i].addrs[NDIRECT], s - NDIRECT - 1;
    assert Points(d, inodes[i], owner, i);
    IndirectOwned(sb, d, inodes, owner, i);
    UnmarkedAt(sb, d, b);
    var e := WithEntry(Unmark(Bm(sb), d, b), x, k, 0);
    BitsAfterFree(sb, d, e, owner, b);
    hide Ref, Points, Backed;
    forall j: nat, t: nat | j < |inodes| && t < NSLOTS
      ensures Ref(e, inodes[j], t) == if j == i && t == s then 0 else Ref(d, inodes[j], t)
    {
      FreedRef(sb, d, inodes, owner, i, s, b, j, t);
    }
    SlotEmptied(sb, d, inodes, owner, e, inodes, i, s);
  }

  /** Ownership does not depend on the contents of blocks that hold neither bitmap nor block numbers. */
  lemma CoreFrame(sb: Super, d: Disk, e: Disk, inodes: seq<Inode>, owner: Owner, x: nat)
    requires Core(sb, d, inodes, owner) && |e| == |d| && !(sb.bmapstart <= x < sb.datastart)
    requires forall b: nat :: b < |d| && b != x ==> e[b] == d[b]
    requires x in owner ==> owner[x].idx != NDIRECT
    ensures Core(sb, e, inodes, owner)
  {
    forall c: nat | c < sb.size ensures Used(Bm(sb), e, c) <==> c < sb.datastart || c in owner {
      UsedFrame(Bm(sb), d, e, c);
    }
    forall j: nat, t: nat | j < |inodes| && t < NSLOTS ensures Ref(e, inodes[j], t) == Ref(d, inodes[j], t) {
      IndirectOwned(sb, d, inodes, owner, j);
    }
    forall j: nat | j < |inodes| ensures Points(e, inodes[j], owner, j) {
      assert Points(d, inodes[j], owner, j);
    }
  }

  // ----- files as byte sequences -----

  const MAXBYTES: nat := MAXFILE * BSIZE

  /** The slot holding byte k of a file. */
  function ByteSlot(k: nat): (s: nat)
    requires k < MAXBYTES
    ensures s < NSLOTS && s != NDIRECT
  {
    SlotOf(k / BSIZE)
  }

  /** Byte k of a file; 0 where no block is mapped. */
  function ByteAt(d: Disk, ino: Inode, k: nat): byte
    requires InodeOk(ino) && k < MAXBYTES
  {
    var r := Ref(d, ino, ByteSlot(k));
    if r == 0 || r >= |d| then 0 else d[r][k % BSIZE]
  }

  /** The contents of a file. */
  function Bytes(d: Disk, ino: Inode): seq<byte>
    requires InodeOk(ino) && ino.size <= MAXBYTES
  {
    seq(ino.size, k requires 0 <= k < ino.size && InodeOk(ino) && ino.size <= MAXBYTES => ByteAt(d, ino, k))
  }

  /** Every byte below the size lies in a mapped block; a free inode has no blocks. */
  ghost predicate FileOk(d: Disk, ino: Inode) {
    && InodeOk(ino)
    && ino.size <= MAXBYTES
    && (forall k: nat :: k < ino.size ==> Ref(d, ino, ByteSlot(k)) != 0)
    && (ino.kind == 0 ==> ino.size == 0 && forall s :: 0 <= s <= NDIRECT ==> ino.addrs[s] == 0)
  }

  /** From (d, inodes, owner) to (e, inodes', owner') inode i may have received blocks: no
      slot has lost its block, no other inode has changed, and of the blocks that were in
      use only the indirect block of i may have. */
  ghost predicate Grown(d: Disk, inodes: seq<Inode>, owner: Owner, e: Disk, inodes': seq<Inode>, owner': Owner, i: nat) {
    && |e| == |d| && |inodes'| == |inodes| && i < |inodes|
    && (forall j :: 0 <= j < |inodes| && j != i ==> inodes'[j] == inodes[j])
    && inodes'[i] == inodes[i].(addrs := inodes'[i].addrs)
    && (forall b :: b in owner ==> b in owner' && owner'[b] == owner[b])
    && forall b :: b in owner && b < |d| && owner[b] != Slot(i, NDIRECT) ==> e[b] == d[b]
  }

  lemma GrownTwice(d: Disk, inodes: seq<Inode>, owner: Owner, e: Disk, inodes1: seq<Inode>, owner1: Owner,
                   f: Disk, inodes2: seq<Inode>, owner2: Owner, i: nat)
    requires Grown(d, inodes, owner, e, inodes1, owner1, i) && Grown(e, inodes1, owner1, f, inodes2, owner2, i)
    ensures Grown(d, inodes, owner, f, inodes2, owner2, i)
  {
  }

  /** bytes have been stored at offset off, and no other byte that was mapped has changed. */
  ghost predicate BytesWritten(d: Disk, ino: Inode, e: Disk, ino': Inode, off: nat, bytes: seq<byte>)
    requires InodeOk(ino) && InodeOk(ino')
  {
    && off + |bytes| <= MAXBYTES
    && (forall k: nat :: k < MAXBYTES && Ref(d, ino, ByteSlot(k)) != 0 && !(off <= k < off + |bytes|) ==>
          Ref(e, ino', ByteSlot(k)) != 0 && ByteAt(e, ino', k) == ByteAt(d, ino, k))
    && (forall k: nat :: off <= k < off + |bytes| ==>
          Ref(e, ino', ByteSlot(k)) != 0 && ByteAt(e, ino', k) == bytes[k - off])
  }

  /** From (d, inodes, owner) to (e, inodes', owner') only blocks and block numbers of inode i have
      changed, and no slot has lost its block. */
  ghost predicate OnlyFile(d: Disk, inodes: seq<Inode>, owner: Owner, e: Disk, inodes': seq<Inode>, owner': Owner, i: nat) {
    && |e| == |d| && |inodes'| == |inodes| && i < |inodes|
    && (forall j :: 0 <= j < |inodes| && j != i ==> inodes'[j] == inodes[j])
    && inodes'[i] == inodes[i].(addrs := inodes'[i].addrs)
    && (forall b :: b in owner ==> b in owner' && owner'[b] == owner[b])
    && (forall b :: b in owner && b < |d| && owner[b].inum != i ==> e[b] == d[b])
  }

  /** A change confined to file i leaves every other file as it was. */
  lemma OtherFileSame(sb: Super, d: Disk, inodes: seq<Inode>, owner: Owner, e: Disk, inodes': seq<Inode>, owner': Owner, i: nat, j: nat)
    requires Core(sb, d, inodes, owner) && Core(sb, e, inodes', owner') && OnlyFile(d, inodes, owner, e, inodes', owner', i)
    requires j < |inodes| && j != i && FileOk(d, inodes[j])
    ensures FileOk(e, inodes'[j]) && Bytes(e, inodes'[j]) == Bytes(d, inodes[j])
  {
    var ino := inodes[j];
    IndirectOwned(sb, d, inodes, owner, j);
    assert Points(d, ino, owner, j);
    forall k: nat | k < ino.size
      ensures Ref(e, ino, ByteSlot(k)) != 0 && ByteAt(e, ino, k) == ByteAt(d, ino, k)
    {
      RefFrame(d, e, ino, ByteSlot(k));
    }
    assert Bytes(e, ino) == Bytes(d, ino);
  }

  lemma OnlyFileTwice(d: Disk, inodes: seq<Inode>, owner: Owner, e: Disk, inodes1: seq<Inode>, owner1: Owner,
                      f: Disk, inodes2: seq<Inode>, owner2: Owner, i: nat)
    requires OnlyFile(d, inodes, owner, e, inodes1, owner1, i) && OnlyFile(e, inodes1, owner1, f, inodes2, owner2, i)
    ensures OnlyFile(d, inodes, owner, f, inodes2, owner2, i)
  {
  }

  lemma GrownIsOnlyFile(d: Disk, inodes: seq<Inode>, owner: Owner, e: Disk, inodes': seq<Inode>, owner': Owner, i: nat)
    requires Grown(d, inodes, owner, e, inodes', owner', i)
    ensures OnlyFile(d, inodes, owner, e, inodes', owner', i)
  {
  }

  lemma GrownRef(sb: Super, d: Disk, inodes: seq<Inode>, owner: Owner, e: Disk, inodes': seq<Inode>, owner': Owner, i: nat, j: nat, s: nat)
    requires Core(sb, d, inodes, owner) && Core(sb, e, inodes', owner') && Grown(d, inodes, owner, e, inodes', owner', i)
    requires j < |inodes| && s < NSLOTS && Ref(d, inodes[j], s) != 0
    ensures Ref(e, inodes'[j], s) == Ref(d, inodes[j], s)
  {
    assert Points(d, inodes[j], owner, j);
  }

  /** Giving blocks to one inode changes no byte of any file. */
  lemma GrownByte(sb: Super, d: Disk, inodes: seq<Inode>, owner: Owner, e: Disk, inodes': seq<Inode>, owner': Owner, i: nat, j: nat, k: nat)
    requires Core(sb, d, inodes, owner) && Core(sb, e, inodes', owner') && Grown(d, inodes, owner, e, inodes', owner', i)
    requires j < |inodes| && k < MAXBYTES && Ref(d, inodes[j], ByteSlot(k)) != 0
    ensures Ref(e, inodes'[j], ByteSlot(k)) != 0
    ensures ByteAt(e, inodes'[j], k) == ByteAt(d, inodes[j], k)
  {
    GrownRef(sb, d, inodes, owner, e, inodes', owner', i, j, ByteSlot(k));
    assert Points(d, inodes[j], owner, j);
  }

  /** More blocks for the file being written. */
  lemma WrittenThenGrown(sb: Super, d: Disk, ino: Inode, e: Disk, inodes1: seq<Inode>, owner1: Owner,
                         f: Disk, inodes2: seq<Inode>, owner2: Owner, i: nat, off: nat, bytes: seq<byte>)
    requires Core(sb, e, inodes1, owner1) && Core(sb, f, inodes2, owner2) && Grown(e, inodes1, owner1, f, inodes2, owner2, i)
    requires InodeOk(ino) && BytesWritten(d, ino, e, inodes1[i], off, bytes)
    ensures BytesWritten(d, ino, f, inodes2[i], off, bytes)
  {
    forall k: nat | k < MAXBYTES && Ref(e, inodes1[i], ByteSlot(k)) != 0
      ensures Ref(f, inodes2[i], ByteSlot(k)) != 0 && ByteAt(f, inodes2[i], k) == ByteAt(e, inodes1[i], k)
    {
      GrownByte(sb, e, inodes1, owner1, f, inodes2, owner2, i, i, k);
    }
  }

  /** Block blk with bytes stored from offset o on. */
  function Patched(blk: Block, o: nat, bytes: seq<byte>): (r: Block)
    requires o + |bytes| <= BSIZE
    ensures forall j :: 0 <= j < BSIZE ==> r[j] == if o <= j < o + |bytes| then bytes[j - o] else blk[j]
  {
    blk[..o] + bytes + blk[o + |bytes|..]
  }

  /** The disk after chunk has been stored at byte position at of an inode. */
  function Stored(d: Disk, ino: Inode, at: nat, chunk: seq<byte>): (e: Disk)
    requires InodeOk(ino) && at < MAXBYTES && at % BSIZE + |chunk| <= BSIZE
    requires Ref(d, ino, ByteSlot(at)) < |d|
    ensures |e| == |d|
  {
    var r := Ref(d, ino, ByteSlot(at));
    d[r := Patched(d[r], at % BSIZE, chunk)]
  }

  lemma StoredCore(sb: Super, d: Disk, inodes: seq<Inode>, owner: Owner, i: nat, at: nat, chunk: seq<byte>)
    requires Core(sb, d, inodes, owner) && i < |inodes|
    requires at < MAXBYTES && at % BSIZE + |chunk| <= BSIZE && Ref(d, inodes[i], ByteSlot(at)) != 0
    ensures Ref(d, inodes[i], ByteSlot(at)) in owner && owner[Ref(d, inodes[i], ByteSlot(at))] == Slot(i, ByteSlot(at))
    ensures sb.datastart <= Ref(d, inodes[i], ByteSlot(at)) < |d|
    ensures Core(sb, Stored(d, inodes[i], at, chunk), inodes, owner)
  {
    var r := Ref(d, inodes[i], ByteSlot(at));
    assert Points(d, inodes[i], owner, i);
    OwnedNonzero(sb, d, owner, r);
    CoreFrame(sb, d, Stored(d, inodes[i], at, chunk), inodes, owner, r);
  }

  /** Storing a chunk inside one block changes exactly those bytes of that file. */
  lemma StoredByte(sb: Super, d: Disk, inodes: seq<Inode>, owner: Owner, i: nat, at: nat, chunk: seq<byte>, k: nat)
    requires Core(sb, d, inodes, owner) && i < |inodes|
    requires at < MAXBYTES && at % BSIZE + |chunk| <= BSIZE && Ref(d, inodes[i], ByteSlot(at)) != 0 && k < MAXBYTES
    ensures Ref(d, inodes[i], ByteSlot(at)) < |d|
    ensures var e := Stored(d, inodes[i], at, chunk);
            && Ref(e, inodes[i], ByteSlot(k)) == Ref(d, inodes[i], ByteSlot(k))
            && ByteAt(e, inodes[i], k) == if at <= k < at + |chunk| then chunk[k - at] else ByteAt(d, inodes[i], k)
  {
    StoredCore(sb, d, inodes, owner, i, at, chunk);
    IndirectOwned(sb, d, inodes, owner, i);
    var e, r := Stored(d, inodes[i], at, chunk), Ref(d, inodes[i], ByteSlot(at));
    RefFrame(d, e, inodes[i], ByteSlot(k));
    assert Points(d, inodes[i], owner, i);
    if k / BSIZE == at / BSIZE {
      assert k - at == k % BSIZE - at % BSIZE;
    } else {
      assert ByteSlot(k) != ByteSlot(at);
      assert !(at <= k < at + |chunk|);
    }
  }

  /** One round of writei's loop. */
  lemma WrittenThenStored(sb: Super, d: Disk, ino: Inode, e: Disk, inodes1: seq<Inode>, owner1: Owner,
                          i: nat, off: nat, bytes: seq<byte>, at: nat, chunk: seq<byte>, f: Disk)
    requires Core(sb, e, inodes1, owner1) && i < |inodes1| && InodeOk(ino)
    requires BytesWritten(d, ino, e, inodes1[i], off, bytes)
    requires at == off + |bytes| < MAXBYTES && at % BSIZE + |chunk| <= BSIZE
    requires 0 < Ref(e, inodes1[i], ByteSlot(at)) < |e| && f == Stored(e, inodes1[i], at, chunk)
    ensures BytesWritten(d, ino, f, inodes1[i], off, bytes + chunk)
  {
    ChunkFits(at, |chunk|);
    forall k: nat | k < MAXBYTES
      ensures Ref(f, inodes1[i], ByteSlot(k)) == Ref(e, inodes1[i], ByteSlot(k))
      ensures ByteAt(f, inodes1[i], k) == if at <= k < at + |chunk| then chunk[k - at] else ByteAt(e, inodes1[i], k)
      ensures at <= k < at + |chunk| ==> ByteSlot(k) == ByteSlot(at)
    {
      StoredByte(sb, e, inodes1, owner1, i, at, chunk, k);
    }
    hide Core, Ref, ByteAt, Stored, ByteSlot;
  }

  lemma ChunkFits(at: nat, n: nat)
    requires at < MAXBYTES && at % BSIZE + n <= BSIZE
    ensures at + n <= MAXBYTES
  {
  }

  lemma StoredOnlyFile(sb: Super, e: Disk, inodes1: seq<Inode>, owner1: Owner, i: nat, at: nat, chunk: seq<byte>)
    requires Core(sb, e, inodes1, owner1) && i < |inodes1| && at < MAXBYTES && at % BSIZE + |chunk| <= BSIZE
    requires Ref(e, inodes1[i], ByteSlot(at)) != 0
    ensures Ref(e, inodes1[i], ByteSlot(at)) < |e|
    ensures OnlyFile(e, inodes1, owner1, Stored(e, inodes1[i], at, chunk), inodes1, owner1, i)
  {
    StoredCore(sb, e, inodes1, owner1, i, at, chunk);
  }

  lemma WrittenTwice(d: Disk, ino: Inode, e: Disk, ino1: Inode, f: Disk, ino2: Inode, off: nat, a: seq<byte>, b: seq<byte>)
    requires InodeOk(ino) && InodeOk(ino1) && InodeOk(ino2)
    requires BytesWritten(d, ino, e, ino1, off, a) && BytesWritten(e, ino1, f, ino2, off + |a|, b)
    ensures BytesWritten(d, ino, f, ino2, off, a + b)
  {
  }

  /** The file contents was with bytes stored from off on, longer if they reach past the end. */
  function Splice(was: seq<byte>, off: nat, bytes: seq<byte>): (r: seq<byte>)
    requires off <= |was|
    ensures |r| == if off + |bytes| > |was| then off + |bytes| else |was|
    ensures forall k :: 0 <= k < |r| ==> r[k] == if off <= k < off + |bytes| then bytes[k - off] else was[k]
  {
    was[..off] + bytes + (if off + |bytes| < |was| then was[off + |bytes|..] else [])
  }

  /** The file after writei has set the size. */
  lemma SizeSet(d: Disk, ino: Inode, e: Disk, ino1: Inode, off: nat, bytes: seq<byte>, ino2: Inode)
    requires FileOk(d, ino) && InodeOk(ino1) && BytesWritten(d, ino, e, ino1, off, bytes) && off <= ino.size && ino.kind != 0
    requires ino1 == ino.(addrs := ino1.addrs)
    requires ino2 == if off + |bytes| > ino.size then ino1.(size := off + |bytes|) else ino1
    ensures FileOk(e, ino2) && Bytes(e, ino2) == Splice(Bytes(d, ino), off, bytes)
  {
    forall k: nat | k < ino2.size
      ensures Ref(e, ino2, ByteSlot(k)) != 0 && ByteAt(e, ino2, k) == Splice(Bytes(d, ino), off, bytes)[k]
    {
      assert Ref(e, ino2, ByteSlot(k)) == Ref(e, ino1, ByteSlot(k)) && ByteAt(e, ino2, k) == ByteAt(e, ino1, k);
      assert k < ino.size ==> Ref(d, ino, ByteSlot(k)) != 0;
    }
    assert Bytes(e, ino2) == Splice(Bytes(d, ino), off, bytes);
  }

  // ----- the inode blocks -----

  /** The on-disk copy of inode j is up to date. */
  ghost predicate SyncedAt(sb: Super, d: Disk, inodes: seq<Inode>, j: nat)
    requires SuperOk(sb, d) && j < |inodes| == sb.ninodes
  {
    IBlockInRange(sb, d, j);
    GetInode(d[IBlock(sb, j)], j % IPB) == inodes[j]
  }

  /** The on-disk copies of all inodes except i are up to date. */
  ghost predicate SyncedBut(sb: Super, d: Disk, inodes: seq<Inode>, i: nat)
    requires SuperOk(sb, d)
  {
    |inodes| == sb.ninodes && forall j: nat :: j < |inodes| && j != i ==> SyncedAt(sb, d, inodes, j)
  }

  /** The disk after iupdate of inode i. */
  function Updated(sb: Super, d: Disk, i: nat, ino: Inode): (e: Disk)
    requires SuperOk(sb, d) && i < sb.ninodes && InodeOk(ino)
    ensures |e| == |d|
  {
    IBlockInRange(sb, d, i);
    d[IBlock(sb, i) := PutInode(d[IBlock(sb, i)], i % IPB, ino)]
  }

  lemma UpdatedSynced(sb: Super, d: Disk, inodes: seq<Inode>, i: nat, j: nat)
    requires SuperOk(sb, d) && |inodes| == sb.ninodes && i < |inodes| && j < |inodes| && InodeOk(inodes[i])
    requires j != i ==> SyncedAt(sb, d, inodes, j)
    ensures SuperOk(sb, Updated(sb, d, i, inodes[i])) && SyncedAt(sb, Updated(sb, d, i, inodes[i]), inodes, j)
  {
    hide GetInode, PutInode;
    IBlockInRange(sb, d, i);
    IBlockInRange(sb, d, j);
    InodeRoundTrip(d[IBlock(sb, i)], i % IPB, inodes[i], j % IPB);
    SameInode(i, j);
  }

  lemma SameInode(i: nat, j: nat)
    ensures i / IPB == j / IPB && i % IPB == j % IPB ==> i == j
  {
  }

  lemma NotMeta(sb: Super, d: Disk, inodes: seq<Inode>, owner: Owner, b: nat)
    requires Core(sb, d, inodes, owner) && b < sb.datastart
    ensures b !in owner
  {
  }

  /** iupdate changes no block number and no byte of any file. */
  lemma UpdatedFrame(sb: Super, d: Disk, inodes: seq<Inode>, owner: Owner, i: nat, ino: Inode)
    requires Core(sb, d, inodes, owner) && i < sb.ninodes && InodeOk(ino)
    ensures Core(sb, Updated(sb, d, i, ino), inodes, owner)
    ensures forall b: nat :: b < |d| && b >= sb.bmapstart ==> Updated(sb, d, i, ino)[b] == d[b]
  {
    hide PutInode, Points, Backed, BitsOk;
    IBlockInRange(sb, d, i);
    var x := IBlock(sb, i);
    NotMeta(sb, d, inodes, owner, x);
    CoreFrame(sb, d, Updated(sb, d, i, ino), inodes, owner, x);
  }

  /** A file depends on its data blocks and its indirect block only. */
  lemma FileFrame(sb: Super, d: Disk, inodes: seq<Inode>, owner: Owner, e: Disk, j: nat, ino: Inode)
    requires Core(sb, d, inodes, owner) && j < |inodes| && |e| == |d| && FileOk(d, ino)
    requires ino.addrs == inodes[j].addrs
    requires forall b: nat :: b < |d| && b >= sb.datastart ==> e[b] == d[b]
    ensures FileOk(e, ino) && Bytes(e, ino) == Bytes(d, ino)
  {
    IndirectOwned(sb, d, inodes, owner, j);
    assert Points(d, inodes[j], owner, j);
    forall k: nat | k < ino.size
      ensures Ref(e, ino, ByteSlot(k)) == Ref(d, ino, ByteSlot(k)) && ByteAt(e, ino, k) == ByteAt(d, ino, k)
    {
      RefFrame(d, e, ino, ByteSlot(k));
      assert Ref(d, inodes[j], ByteSlot(k)) == Ref(d, ino, ByteSlot(k));
    }
    assert Bytes(e, ino) == Bytes(d, ino);
  }

  ghost predicate FilesOk(d: Disk, inodes: seq<Inode>, n: nat) {
    |inodes| == n && forall j: nat :: j < n ==> FileOk(d, inodes[j])
  }

  /** File j reads the same in both states. */
  ghost predicate SameFile(d: Disk, inodes: seq<Inode>, e: Disk, inodes': seq<Inode>, j: nat) {
    && j < |inodes| == |inodes'| && FileOk(d, inodes[j]) && FileOk(e, inodes'[j])
    && inodes'[j] == inodes[j] && Bytes(e, inodes'[j]) == Bytes(d, inodes[j])
  }

  ghost predicate OthersSame(d: Disk, inodes: seq<Inode>, e: Disk, inodes': seq<Inode>, i: nat) {
    forall j: nat :: j < |inodes| && j != i ==> SameFile(d, inodes, e, inodes', j)
  }

  /** Ownership does not depend on anything in an inode but its block numbers. */
  lemma CoreSameAddrs(sb: Super, d: Disk, inodes: seq<Inode>, owner: Owner, i: nat, ino: Inode)
    requires Core(sb, d, inodes, owner) && i < |inodes| && ino.addrs == inodes[i].addrs
    ensures Core(sb, d, inodes[i := ino], owner)
  {
    var inodes' := inodes[i := ino];
    forall j: nat | j < |inodes'| ensures Points(d, inodes'[j], owner, j) {
      assert Points(d, inodes[j], owner, j);
      assert inodes'[j].addrs == inodes[j].addrs;
      forall s: nat | s < NSLOTS ensures Ref(d, inodes'[j], s) == Ref(d, inodes[j], s) {
      }
    }
    forall b | b in owner
      ensures owner[b].inum < |inodes'| && owner[b].idx < NSLOTS && Ref(d, inodes'[owner[b].inum], owner[b].idx) == b
    {
      assert inodes'[owner[b].inum].addrs == inodes[owner[b].inum].addrs;
    }
  }

  /** The file system after the loop of writei and the new size. */
  lemma AfterWrite(sb: Super, d0: Disk, n0: seq<Inode>, o0: Owner, d: Disk, n: seq<Inode>, o: Owner, i: nat, off: nat, bytes: seq<byte>, ino: Inode)
    requires Core(sb, d0, n0, o0) && Core(sb, d, n, o) && OnlyFile(d0, n0, o0, d, n, o, i) && FilesOk(d0, n0, sb.ninodes)
    requires BytesWritten(d0, n0[i], d, n[i], off, bytes) && off <= n0[i].size && n0[i].kind != 0
    requires ino == if off + |bytes| > n[i].size then n[i].(size := off + |bytes|) else n[i]
    ensures Core(sb, d, n[i := ino], o) && FilesOk(d, n[i := ino], sb.ninodes)
    ensures Bytes(d, ino) == Splice(Bytes(d0, n0[i]), off, bytes)
    ensures OthersSame(d0, n0, d, n[i := ino], i)
  {
    assert FileOk(d0, n0[i]);
    SizeSet(d0, n0[i], d, n[i], off, bytes, ino);
    CoreSameAddrs(sb, d, n, o, i, ino);
    var n' := n[i := ino];
    forall j: nat | j < |n0| && j != i ensures SameFile(d0, n0, d, n', j) {
      assert FileOk(d0, n0[j]);
      OtherFileSame(sb, d0, n0, o0, d, n, o, i, j);
    }
    hide Core, OnlyFile, BytesWritten, Bytes;
    forall j: nat | j < |n'| ensures FileOk(d, n'[j]) {
      if j != i {
        assert SameFile(d0, n0, d, n', j);
      }
    }
  }

  /** Files do not depend on the inode blocks. */
  lemma FilesFrame(sb: Super, d: Disk, n: seq<Inode>, o: Owner, e: Disk, j: nat)
    requires Core(sb, d, n, o) && FilesOk(d, n, sb.ninodes) && |e| == |d| && j < |n|
    requires forall b: nat :: b < |d| && b >= sb.bmapstart ==> e[b] == d[b]
    ensures SameFile(d, n, e, n, j)
  {
    assert FileOk(d, n[j]);
    FileFrame(sb, d, n, o, e, j, n[j]);
  }

  // ----- truncation -----

  /** The order in which itrunc frees slots: direct, indirect entries, the indirect block. */
  function Rank(s: nat): nat {
    if s < NDIRECT then s else if s == NDIRECT then NSLOTS - 1 else s - 1
  }

  /** Of owner map o0 exactly the first p slots of inode i, in freeing order, are gone in o. */
  ghost predicate Removed(o0: Owner, o: Owner, i: nat, p: nat) {
    && (forall b :: b in o <==> b in o0 && !(o0[b].inum == i && Rank(o0[b].idx) < p))
    && forall b :: b in o ==> o[b] == o0[b]
  }

  lemma RemovedStep(sb: Super, d: Disk, inodes: seq<Inode>, o: Owner, o0: Owner, i: nat, s: nat)
    requires Core(sb, d, inodes, o) && i < |inodes| && s < NSLOTS && Removed(o0, o, i, Rank(s))
    requires forall b :: b in o0 ==> o0[b].idx < NSLOTS
    ensures Removed(o0, if Ref(d, inodes[i], s) == 0 then o else o - {Ref(d, inodes[i], s)}, i, Rank(s) + 1)
  {
    var r := Ref(d, inodes[i], s);
    var o' := if r == 0 then o else o - {r};
    assert Points(d, inodes[i], o, i);
    forall b ensures b in o' <==> b in o0 && !(o0[b].inum == i && Rank(o0[b].idx) < Rank(s) + 1) {
      if b in o && o[b] == Slot(i, s) {
        OwnedNonzero(sb, d, o, b);
        assert Ref(d, inodes[i], s) == b;
      }
    }
  }

  /** Disks d and dz agree on every block except x. */
  ghost predicate SameBut(d: Disk, dz: Disk, x: nat) {
    |d| == |dz| && forall b: nat :: b < |d| && b != x ==> d[b] == dz[b]
  }

  /** Freeing a block leaves two disks that differ in data block x differing there only. */
  lemma UnmarkBoth(sb: Super, d: Disk, dz: Disk, x: nat, b: nat)
    requires SuperOk(sb, d) && SameBut(d, dz, x) && sb.datastart <= x && sb.datastart <= b < sb.size
    ensures SuperOk(sb, dz) && (Used(Bm(sb), dz, b) <==> Used(Bm(sb), d, b))
    ensures SameBut(Unmark(Bm(sb), d, b), Unmark(Bm(sb), dz, b), x)
    ensures x < |d| ==> Unmark(Bm(sb), dz, b)[x] == dz[x] && Unmark(Bm(sb), d, b)[x] == d[x]
  {
  }

  /** Words of an indirect block: zero below k, unchanged from k on. */
  ghost predicate ZeroBelow(a: Block, z: Block, k: nat)
    requires k <= NINDIRECT
  {
    forall t: nat :: t < NINDIRECT ==> Word(z, t) == if t < k then 0 else Word(a, t)
  }

  lemma ZeroNext(a: Block, z: Block, k: nat)
    requires k < NINDIRECT && ZeroBelow(a, z, k)
    ensures ZeroBelow(a, SetWord(z, k, 0), k + 1)
    ensures Word(a, k) == 0 ==> ZeroBelow(a, z, k + 1)
  {
    forall t: nat | t < NINDIRECT ensures Word(SetWord(z, k, 0), t) == if t < k + 1 then 0 else Word(a, t) {
      WordOfSetWord(z, k, 0, t);
    }
  }
}
