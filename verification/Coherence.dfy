/** Agreement between the buffer cache, the log header and one logical disk: the
    contents that every reader must see, ahead of the real disk by exactly the
    blocks of the current transaction. */
module Coherence {
  import opened Blocks
  import opened Crash
  import opened BufferCache

  /** What one buffer owes to the logical disk. A dirty buffer is being changed by its
      holder and has not been logged yet. */
  predicate BufOk(b: Buf, dirty: bool, pinned: bool, logical: Disk) {
    && b.dev <= 1
    && (b.valid ==> b.dev == 1 && b.blockno < |logical|)
    && (b.valid && !dirty ==> b.data == logical[b.blockno])
    && (dirty ==> b.locked && b.valid)
    && b.refcnt >= (if b.locked then 1 else 0) + (if pinned then 1 else 0)
  }

  /** pins[k] is the buffer that keeps logged block lh[k] in the cache. */
  ghost predicate Pinned(bufs: seq<Buf>, lh: seq<nat>, pins: seq<nat>) {
    && |pins| == |lh|
    && forall k :: 0 <= k < |lh| ==> pins[k] < |bufs| && bufs[pins[k]].valid && Holds(bufs[pins[k]], 1, lh[k])
  }

  ghost predicate Coherent(disk: Disk, bufs: seq<Buf>, logical: Disk, lh: seq<nat>, pins: seq<nat>, dirty: set<nat>) {
    && |bufs| == NBUF
    && |logical| == |disk|
    && (forall b: nat :: b < |disk| && b !in lh ==> disk[b] == logical[b])
    && (forall i: nat :: i < NBUF ==> BufOk(bufs[i], i in dirty, i in pins, logical))
    && Pinned(bufs, lh, pins)
    && forall i :: i in dirty ==> i < NBUF
  }

  /** A block that no valid buffer holds is not in the log, so the disk is up to date. */
  lemma UncachedIsClean(disk: Disk, bufs: seq<Buf>, logical: Disk, lh: seq<nat>, pins: seq<nat>, dirty: set<nat>, blk: nat)
    requires Coherent(disk, bufs, logical, lh, pins, dirty) && blk < |disk|
    requires forall i :: 0 <= i < NBUF && bufs[i].valid ==> !Holds(bufs[i], 1, blk)
    ensures disk[blk] == logical[blk]
  {
  }

  /** bread always returns the latest contents, and neither filling nor recycling a
      buffer loses any. */
  lemma ReadSeesLogical(disk: Disk, bufs: seq<Buf>, logical: Disk, lh: seq<nat>, pins: seq<nat>, dirty: set<nat>,
                        bufs': seq<Buf>, i: nat, blk: nat)
    requires Coherent(disk, bufs, logical, lh, pins, dirty) && BufsOk(bufs)
    requires blk < |disk| && i < NBUF
    requires forall j :: 0 <= j < NBUF && Holds(bufs[j], 1, blk) ==> !bufs[j].locked
    requires |bufs'| == NBUF && bufs' == bufs[i := bufs'[i]]
    requires Holds(bufs'[i], 1, blk) && bufs'[i].locked && bufs'[i].valid
    requires Holds(bufs[i], 1, blk) ==>
               && bufs'[i].refcnt == bufs[i].refcnt + 1
               && bufs'[i].data == if bufs[i].valid then bufs[i].data else disk[blk]
    requires !Holds(bufs[i], 1, blk) ==>
               && (forall j :: 0 <= j < NBUF ==> !Holds(bufs[j], 1, blk))
               && bufs[i].refcnt == 0 && bufs'[i].refcnt == 1 && bufs'[i].data == disk[blk]
    ensures bufs'[i].data == logical[blk] && i !in dirty
    ensures Coherent(disk, bufs', logical, lh, pins, dirty)
  {
  }

  /** The holder changes the contents of its buffer. */
  lemma ChangeIsDirty(disk: Disk, bufs: seq<Buf>, logical: Disk, lh: seq<nat>, pins: seq<nat>, dirty: set<nat>, i: nat, x: Block)
    requires Coherent(disk, bufs, logical, lh, pins, dirty) && i < NBUF
    requires bufs[i].locked && bufs[i].valid
    ensures Coherent(disk, bufs[i := bufs[i].(data := x)], logical, lh, pins, dirty + {i})
  {
  }

  /** Writing an unlogged block through to the disk moves the logical disk with it. */
  lemma WriteThrough(disk: Disk, bufs: seq<Buf>, logical: Disk, lh: seq<nat>, pins: seq<nat>, dirty: set<nat>, i: nat)
    requires Coherent(disk, bufs, logical, lh, pins, dirty) && BufsOk(bufs) && i < NBUF
    requires bufs[i].valid && bufs[i].blockno < |disk| && bufs[i].blockno !in lh
    ensures var blk, x := bufs[i].blockno, bufs[i].data;
            Coherent(disk[blk := x], bufs, logical[blk := x], lh, pins, dirty - {i})
  {
  }

  /** The buffer holding a logged block is its pin, with a reference to spare for a holder. */
  lemma PinOf(disk: Disk, bufs: seq<Buf>, logical: Disk, lh: seq<nat>, pins: seq<nat>, dirty: set<nat>, i: nat, k: nat)
    requires Coherent(disk, bufs, logical, lh, pins, dirty) && BufsOk(bufs) && i < NBUF && k < |lh|
    requires bufs[i].locked && Holds(bufs[i], 1, lh[k])
    ensures pins[k] == i && bufs[i].refcnt >= 2
  {
  }

  /** Writing the first logged block home and unpinning it takes it out of the log. */
  lemma InstallFirst(disk: Disk, bufs: seq<Buf>, logical: Disk, lh: seq<nat>, pins: seq<nat>, dirty: set<nat>, i: nat)
    requires Coherent(disk, bufs, logical, lh, pins, dirty) && BufsOk(bufs) && i < NBUF && |lh| > 0
    requires Distinct(lh) && lh[0] < |disk|
    requires bufs[i].locked && bufs[i].valid && Holds(bufs[i], 1, lh[0]) && bufs[i].data == logical[lh[0]]
    ensures bufs[i].refcnt >= 2
    ensures Coherent(disk[lh[0] := bufs[i].data], bufs[i := bufs[i].(refcnt := bufs[i].refcnt - 1)], logical,
                     lh[1..], pins[1..], dirty - {i})
  {
  }

  /** Releasing a buffer that is not dirty. */
  lemma ReleaseKeeps(disk: Disk, bufs: seq<Buf>, logical: Disk, lh: seq<nat>, pins: seq<nat>, dirty: set<nat>, i: nat)
    requires Coherent(disk, bufs, logical, lh, pins, dirty) && i < NBUF && i !in dirty && bufs[i].locked
    ensures bufs[i].refcnt >= 1
    ensures Coherent(disk, bufs[i := bufs[i].(refcnt := bufs[i].refcnt - 1, locked := false)], logical, lh, pins, dirty)
  {
  }

  /** log_write of a block already in the log: the logical disk takes the new contents. */
  lemma LogAgain(disk: Disk, bufs: seq<Buf>, logical: Disk, lh: seq<nat>, pins: seq<nat>, dirty: set<nat>, i: nat)
    requires Coherent(disk, bufs, logical, lh, pins, dirty) && BufsOk(bufs) && i < NBUF
    requires bufs[i].valid && bufs[i].blockno in lh
    ensures Coherent(disk, bufs, logical[bufs[i].blockno := bufs[i].data], lh, pins, dirty - {i})
  {
  }

  /** log_write of a new block: it is pinned and enters the log. */
  lemma LogFirst(disk: Disk, bufs: seq<Buf>, logical: Disk, lh: seq<nat>, pins: seq<nat>, dirty: set<nat>, i: nat)
    requires Coherent(disk, bufs, logical, lh, pins, dirty) && BufsOk(bufs) && i < NBUF
    requires bufs[i].valid && bufs[i].blockno !in lh
    ensures Coherent(disk, bufs[i := bufs[i].(refcnt := bufs[i].refcnt + 1)], logical[bufs[i].blockno := bufs[i].data],
                     lh + [bufs[i].blockno], pins + [i], dirty - {i})
  {
  }
}
