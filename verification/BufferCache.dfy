/** The buffer cache: NBUF buffers on one least-recently-used ring, in front of
    a disk whose block writes are recorded in order. Buffers are named by their
    index; index NBUF is the list head. */
module BufferCache {
  import opened Blocks
  import opened Crash
  import opened LruList

  const NBUF: nat := MAXOPBLOCKS * 3
  const HEAD: nat := NBUF

  datatype Buf = Buf(valid: bool, dev: nat, blockno: nat, refcnt: nat, locked: bool, data: Block)

  /** What bget comes to: a buffer; a buffer that somebody else has locked, for which the caller waits;
      no buffer left, which is the panic. */
  datatype Got = Buffer(value: nat) | Busy | NoBuffer

  predicate Holds(b: Buf, dev: nat, blockno: nat) {
    b.dev == dev && b.blockno == blockno
  }

  /** No two buffers carry the same block of a real device. */
  ghost predicate Unique(bufs: seq<Buf>) {
    forall i, j :: 0 <= i < j < |bufs| && bufs[i].dev != 0 ==> !Holds(bufs[j], bufs[i].dev, bufs[i].blockno)
  }

  /** The list in order of use, most recent first, closed at the head. */
  function Ring(order: seq<nat>): seq<nat> {
    [HEAD] + order + [HEAD]
  }

  /** Every buffer occurs on the list. */
  ghost predicate Covers(order: seq<nat>) {
    |order| == NBUF && forall i :: 0 <= i < NBUF ==> i in order
  }

  /** Earlier on the list means released more recently. */
  ghost predicate ByRecency(order: seq<nat>, stamp: seq<nat>, clock: nat) {
    && |stamp| == NBUF
    && (forall k :: 0 <= k < |order| ==> order[k] < NBUF && stamp[order[k]] < clock)
    && forall k, l :: 0 <= k < l < |order| ==> stamp[order[k]] > stamp[order[l]]
  }

  /** next and prev form one ring through the head and every buffer, most recently released first. */
  ghost predicate ListOk(next: seq<nat>, prev: seq<nat>, order: seq<nat>, stamp: seq<nat>, clock: nat) {
    |next| == NBUF + 1 && Chain(next, prev, Ring(order)) && Covers(order) && ByRecency(order, stamp, clock)
  }

  ghost predicate BufsOk(bufs: seq<Buf>) {
    && |bufs| == NBUF
    && Unique(bufs)
    && forall i :: 0 <= i < NBUF && bufs[i].locked ==> bufs[i].refcnt >= 1
  }

  lemma StillCovers(order: seq<nat>, k: nat)
    requires Covers(order) && k < |order|
    ensures Covers([order[k]] + Without(order, k))
  {
    var order' := [order[k]] + Without(order, k);
    forall i | 0 <= i < NBUF ensures i in order' {
      assert i in order;
      var j :| 0 <= j < |order| && order[j] == i;
      assert order'[0] == order[k] && (j < k ==> order'[j + 1] == i) && (j > k ==> order'[j] == i);
    }
  }

  /** Moving a buffer to the front with a new stamp keeps the list ordered by recency. */
  lemma MovedToFront(order: seq<nat>, stamp: seq<nat>, clock: nat, k: nat)
    requires ByRecency(order, stamp, clock) && k < |order|
    ensures ByRecency([order[k]] + Without(order, k), stamp[order[k] := clock], clock + 1)
  {
  }

  class Cache {
    var disk: Disk
    var bufs: seq<Buf>
    var next: seq<nat>
    var prev: seq<nat>

    // the list from head.next on, and the moment each buffer was last released to zero
    ghost var order: seq<nat>
    ghost var stamp: seq<nat>
    ghost var clock: nat
    // every block write so far
    ghost var trace: seq<Write>

    ghost predicate Valid()
      reads this
    {
      BufsOk(bufs) && ListOk(next, prev, order, stamp, clock)
    }

    /** Is the block in no buffer that somebody has locked? */
    ghost predicate Available(blk: nat)
      reads this
    {
      forall i :: 0 <= i < |bufs| && Holds(bufs[i], 1, blk) ==> !bufs[i].locked
    }

    /** Every buffer is in use, so that bget of an uncached block panics. */
    ghost predicate Exhausted()
      reads this
    {
      forall i :: 0 <= i < |bufs| ==> bufs[i].refcnt > 0
    }

    /** An empty cache over disk d. */
    constructor (d: Disk)
      ensures Valid() && disk == d && trace == []
      ensures forall i :: 0 <= i < NBUF ==> bufs[i] == Buf(false, 0, 0, 0, false, ZeroBlock())
    {
      disk, trace := d, [];
      bufs := seq(NBUF, _ => Buf(false, 0, 0, 0, false, ZeroBlock()));
      var nx: seq<nat>, pv: seq<nat> := seq(NBUF + 1, _ => HEAD), seq(NBUF + 1, _ => HEAD);
      ghost var ord: seq<nat> := [];
      var b := 0;
      assert Chain(nx, pv, Ring(ord));
      while b < NBUF
        invariant 0 <= b <= NBUF && |nx| == NBUF + 1 && |ord| == b
        invariant Chain(nx, pv, Ring(ord))
        invariant forall k :: 0 <= k < b ==> ord[k] == b - 1 - k
      {
        Pushed(nx, pv, Ring(ord), b);
        assert Ring([b] + ord) == [HEAD, b] + Ring(ord)[1..];
        var first := nx[HEAD];
        assert first == Ring(ord)[1];
        nx := nx[b := first];
        pv := pv[b := HEAD];
        pv := pv[first := b];
        nx := nx[HEAD := b];
        ord := [b] + ord;
        b := b + 1;
      }
      next, prev, order := nx, pv, ord;
      stamp, clock := seq(NBUF, i => i), NBUF;
      forall i: nat | i < NBUF ensures i in ord {
        assert ord[NBUF - 1 - i] == i;
      }
    }

    /** The first scan of bget, from the most recently used end. */
    method FindCached(dev: nat, blockno: nat) returns (b: nat)
      requires Valid()
      ensures b < NBUF ==> Holds(bufs[b], dev, blockno)
      ensures b >= NBUF ==> b == HEAD && forall i :: 0 <= i < NBUF ==> !Holds(bufs[i], dev, blockno)
    {
      ghost var ring := Ring(order);
      assert next[ring[0]] == ring[1];
      b := next[HEAD];
      ghost var k := 1;
      while b != HEAD
        invariant 1 <= k < |ring| && b == ring[k]
        invariant forall j :: 0 <= j < k - 1 ==> !Holds(bufs[order[j]], dev, blockno)
        decreases |ring| - k
      {
        assert b == order[k - 1];
        if Holds(bufs[b], dev, blockno) {
          return;
        }
        assert next[ring[k]] == ring[k + 1];
        b := next[b];
        k := k + 1;
      }
      assert k == |ring| - 1;
      forall i | 0 <= i < NBUF ensures !Holds(bufs[i], dev, blockno) {
        assert i in order;
        var j :| 0 <= j < |order| && order[j] == i;
      }
    }

    /** The second scan of bget, from the least recently used end. */
    method FindFree() returns (b: nat)
      requires Valid()
      ensures b < NBUF ==> bufs[b].refcnt == 0 && forall i :: 0 <= i < NBUF && bufs[i].refcnt == 0 ==> stamp[b] <= stamp[i]
      ensures b >= NBUF ==> b == HEAD && forall i :: 0 <= i < NBUF ==> bufs[i].refcnt > 0
    {
      ghost var ring := Ring(order);
      ghost var k := |ring| - 2;
      assert prev[ring[k + 1]] == ring[k];
      b := prev[HEAD];
      while b != HEAD
        invariant 0 <= k < |ring| - 1 && b == ring[k]
        invariant forall j :: k <= j < |order| ==> bufs[order[j]].refcnt > 0
        decreases k
      {
        assert b == order[k - 1];
        if bufs[b].refcnt == 0 {
          forall i | 0 <= i < NBUF && bufs[i].refcnt == 0 ensures stamp[b] <= stamp[i] {
            assert i in order;
            var j :| 0 <= j < |order| && order[j] == i;
            assert j < k;
          }
          return;
        }
        assert prev[ring[k - 1 + 1]] == ring[k - 1];
        b := prev[b];
        k := k - 1;
      }
      assert k == 0;
      forall i | 0 <= i < NBUF ensures bufs[i].refcnt > 0 {
        assert i in order;
        var j :| 0 <= j < |order| && order[j] == i;
      }
    }

    /** bget: find the block, or recycle the buffer released longest ago. */
    method BGet(dev: nat, blockno: nat) returns (r: Got)
      requires Valid() && dev != 0
      modifies this`bufs
      ensures Valid()
      ensures r.NoBuffer? ==> bufs == old(bufs)
                              && forall i :: 0 <= i < NBUF ==> bufs[i].refcnt > 0 && !Holds(bufs[i], dev, blockno)
      ensures r.Busy? ==> bufs == old(bufs) && exists i :: 0 <= i < NBUF && Holds(bufs[i], dev, blockno) && bufs[i].locked
      ensures r.Buffer? ==> r.value < NBUF && !old(bufs[r.value].locked)
      ensures r.Buffer? ==> Holds(bufs[r.value], dev, blockno) && bufs[r.value].locked
      ensures r.Buffer? && Holds(old(bufs[r.value]), dev, blockno) ==>
                bufs == old(bufs)[r.value := old(bufs[r.value]).(refcnt := old(bufs[r.value].refcnt) + 1, locked := true)]
      ensures r.Buffer? && !Holds(old(bufs[r.value]), dev, blockno) ==>
                && (forall i :: 0 <= i < NBUF ==> !Holds(old(bufs[i]), dev, blockno))
                && old(bufs[r.value].refcnt) == 0
                && (forall i :: 0 <= i < NBUF && old(bufs[i].refcnt) == 0 ==> stamp[r.value] <= stamp[i])
                && bufs == old(bufs)[r.value := Buf(false, dev, blockno, 1, true, old(bufs[r.value].data))]
    {
      hide Covers, Chain, Ring;
      var b := FindCached(dev, blockno);
      if b != HEAD {
        if bufs[b].locked {
          return Busy;
        }
        bufs := bufs[b := bufs[b].(refcnt := bufs[b].refcnt + 1, locked := true)];
        return Buffer(b);
      }
      b := FindFree();
      if b != HEAD {
        bufs := bufs[b := Buf(false, dev, blockno, 1, true, bufs[b].data)];
        return Buffer(b);
      }
      return NoBuffer;
    }

    /** The list surgery of brelse. */
    method MoveToFront(b: nat)
      requires ListOk(next, prev, order, stamp, clock) && b < NBUF
      modifies this`next, this`prev, this`order, this`stamp, this`clock
      ensures ListOk(next, prev, order, stamp, clock)
      ensures stamp == old(stamp)[b := old(clock)] && clock == old(clock) + 1
      ensures exists k :: 0 <= k < NBUF && old(order)[k] == b && order == [b] + Without(old(order), k)
    {
      assert b in order;
      ghost var k :| 0 <= k < |order| && order[k] == b;
      assert |order| == NBUF;
      Requeued(next, prev, order, k);
      StillCovers(order, k);
      MovedToFront(order, stamp, clock, k);
      hide Covers, ByRecency, Chain, Ring;
      prev := prev[next[b] := prev[b]];
      next := next[prev[b] := next[b]];
      next := next[b := next[HEAD]];
      prev := prev[b := HEAD];
      prev := prev[next[HEAD] := b];
      next := next[HEAD := b];
      order := [b] + Without(order, k);
      stamp, clock := stamp[b := clock], clock + 1;
    }

    /** brelse: unlock, and move a buffer nobody uses any more to the front. */
    method BRelse(b: nat)
      requires Valid() && b < NBUF && bufs[b].locked
      modifies this`bufs, this`next, this`prev, this`order, this`stamp, this`clock
      ensures Valid()
      ensures bufs == old(bufs)[b := old(bufs[b]).(refcnt := old(bufs[b].refcnt) - 1, locked := false)]
      ensures old(bufs[b].refcnt) > 1 ==> order == old(order) && stamp == old(stamp) && clock == old(clock)
      ensures old(bufs[b].refcnt) == 1 ==>
                && stamp == old(stamp)[b := old(clock)] && clock == old(clock) + 1
                && exists k :: 0 <= k < NBUF && old(order)[k] == b && order == [b] + Without(old(order), k)
    {
      hide Covers, ByRecency, Chain, Ring;
      bufs := bufs[b := bufs[b].(refcnt := bufs[b].refcnt - 1, locked := false)];
      if bufs[b].refcnt == 0 {
        MoveToFront(b);
      }
    }

    /** bpin: keep the buffer in the cache. */
    method BPin(b: nat)
      requires Valid() && b < NBUF
      modifies this`bufs
      ensures Valid()
      ensures bufs == old(bufs)[b := old(bufs[b]).(refcnt := old(bufs[b].refcnt) + 1)]
    {
      bufs := bufs[b := bufs[b].(refcnt := bufs[b].refcnt + 1)];
    }

    /** bunpin, on a buffer that is held as well as pinned. */
    method BUnpin(b: nat)
      requires Valid() && b < NBUF && bufs[b].locked && bufs[b].refcnt >= 2
      modifies this`bufs
      ensures Valid()
      ensures bufs == old(bufs)[b := old(bufs[b]).(refcnt := old(bufs[b].refcnt) - 1)]
    {
      bufs := bufs[b := bufs[b].(refcnt := bufs[b].refcnt - 1)];
    }

    /** bread: a locked buffer with the contents of the block. */
    method BRead(blockno: nat) returns (r: Got)
      requires Valid() && blockno < |disk|
      modifies this`bufs
      ensures Valid()
      ensures r.NoBuffer? ==> bufs == old(bufs) && Exhausted() && forall i :: 0 <= i < NBUF ==> !Holds(bufs[i], 1, blockno)
      ensures r.Busy? ==> bufs == old(bufs) && !Available(blockno)
      ensures r.Buffer? ==> r.value < NBUF && !old(bufs[r.value].locked) && Holds(bufs[r.value], 1, blockno)
      ensures r.Buffer? ==> bufs == old(bufs)[r.value := bufs[r.value]]
      ensures r.Buffer? ==> bufs[r.value].locked && bufs[r.value].valid
      ensures r.Buffer? && Holds(old(bufs[r.value]), 1, blockno) ==>
                && bufs[r.value].refcnt == old(bufs[r.value].refcnt) + 1
                && bufs[r.value].data == if old(bufs[r.value].valid) then old(bufs[r.value].data) else disk[blockno]
      ensures r.Buffer? && !Holds(old(bufs[r.value]), 1, blockno) ==>
                && (forall i :: 0 <= i < NBUF ==> !Holds(old(bufs[i]), 1, blockno))
                && old(bufs[r.value].refcnt) == 0 && bufs[r.value].refcnt == 1
                && bufs[r.value].data == disk[blockno]
    {
      r := BGet(1, blockno);
      if r.Buffer? && !bufs[r.value].valid {
        bufs := bufs[r.value := bufs[r.value].(valid := true, data := disk[blockno])];
      }
    }

    /** bwrite: one atomic block write. */
    method BWrite(b: nat)
      requires Valid() && b < NBUF && bufs[b].locked && bufs[b].blockno < |disk|
      modifies this`disk, this`trace
      ensures Valid()
      ensures disk == old(disk)[bufs[b].blockno := bufs[b].data]
      ensures trace == old(trace) + [Write(bufs[b].blockno, bufs[b].data)]
    {
      disk := disk[bufs[b].blockno := bufs[b].data];
      trace := trace + [Write(bufs[b].blockno, bufs[b].data)];
    }

    /** The holder of a buffer overwrites its contents (memmove, memset, field stores). */
    method SetData(b: nat, x: Block)
      requires Valid() && b < NBUF && bufs[b].locked
      modifies this`bufs
      ensures Valid()
      ensures bufs == old(bufs)[b := old(bufs[b]).(data := x)]
    {
      bufs := bufs[b := bufs[b].(data := x)];
    }
  }

  lemma Links(next: seq<nat>, prev: seq<nat>, order: seq<nat>, k: nat)
    requires Chain(next, prev, Ring(order)) && k < |order|
    ensures |Ring(order)| == |order| + 2 && Ring(order)[k + 1] == order[k] && HEAD < |next| == |prev|
    ensures var b := order[k]; b < |next| && next[b] < |prev| && prev[b] < |next| && next[b] != b
    ensures Without(Ring(order), k + 1) == Ring(Without(order, k)) && order[k] !in Ring(Without(order, k))
  {
    var ring := Ring(order);
    assert ring[0] == HEAD && next[ring[k + 1]] == ring[k + 2] && prev[ring[k + 1]] == ring[k];
    assert ring[k + 2] != ring[k + 1] by {
      assert k + 2 < |ring| - 1 || ring[k + 2] == ring[0];
    }
    NotIn(ring, k + 1);
  }

  lemma Front(next: seq<nat>, prev: seq<nat>, order: seq<nat>, b: nat)
    requires Chain(next, prev, Ring(order))
    ensures |Ring(order)| >= 2 && Ring(order)[0] == HEAD < |next| == |prev| && next[HEAD] == Ring(order)[1] < |prev|
    ensures Ring([b] + order) == [HEAD, b] + Ring(order)[1..]
  {
  }

  /** The six link assignments of brelse take a buffer out of the ring and put it first. */
  lemma Requeued(next: seq<nat>, prev: seq<nat>, order: seq<nat>, k: nat)
    requires Chain(next, prev, Ring(order)) && k < |order|
    ensures order[k] < |next| == |prev|
    ensures var b, order' := order[k], [order[k]] + Without(order, k);
            && next[b] < |prev| && prev[b] < |next|
            && var prev1 := prev[next[b] := prev[b]];
            && prev1[b] < |next|
            && var next1 := next[prev1[b] := next[b]];
            && |next1| > HEAD && next1[HEAD] < |prev|
            && var next2 := next1[b := next1[HEAD]];
            && next2[HEAD] < |prev|
            && Chain(next2[HEAD := b], prev1[b := HEAD][next2[HEAD] := b], Ring(order'))
  {
    hide Chain, Ring;
    var b, rest := order[k], Without(order, k);
    Links(next, prev, order, k);
    Unlinked(next, prev, Ring(order), k + 1);
    var next1, prev1 := next[prev[b] := next[b]], prev[next[b] := prev[b]];
    Front(next1, prev1, rest, b);
    Pushed(next1, prev1, Ring(rest), b);
  }

  lemma NotIn(ring: seq<nat>, k: nat)
    requires 0 < k < |ring| - 1 && ring[0] == ring[|ring| - 1]
    requires forall i, j :: 0 <= i < j < |ring| - 1 ==> ring[i] != ring[j]
    ensures ring[k] !in Without(ring, k)
  {
  }
}
