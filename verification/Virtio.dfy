/** virtio_disk.c: the driver's side of the queue, between two sleeps, and a device that returns each head once. */
module Virtio {
  import opened Virtqueue

  class Disk {
    var free: seq<bool>
    var desc: seq<Desc>
    var avail: seq<nat>
    var availIdx: nat
    var used: seq<nat>
    var usedIdxDev: nat
    var usedIdx: nat
    var info: seq<Info>
    var busy: set<nat>
    // the device: how far it has read the avail ring
    var seen: nat
    // who has each descriptor, the outstanding requests, and the counters without wrapping
    ghost var slots: seq<Slot>
    ghost var reqs: Reqs
    ghost var a: nat
    ghost var d: nat
    ghost var u: nat
    ghost var v: nat

    ghost predicate Valid()
      reads this
    {
      && AllSlots(free, desc, slots, reqs) && RingsOk(avail, used, info, busy, reqs, a, d, u, v)
      && availIdx == a % UINT16 && seen == d % UINT16 && usedIdxDev == u % UINT16 && usedIdx == v % UINT16
    }

    /** After virtio_disk_init: every descriptor is free, both rings are empty. */
    constructor ()
      ensures Valid() && reqs == map[]
    {
      free := seq(NUM, _ => true);
      desc := seq(NUM, _ => EMPTY);
      avail, used := seq(NUM, _ => 0), seq(NUM, _ => 0);
      availIdx, usedIdxDev, usedIdx, seen := 0, 0, 0, 0;
      info := seq(NUM, _ => Info(0, 0));
      busy := {};
      slots := seq(NUM, _ => Free);
      reqs := map[];
      a, d, u, v := 0, 0, 0, 0;
    }

    /** alloc_desc: the first free descriptor, or -1. */
    method AllocDesc() returns (i: int)
      requires |free| == NUM
      modifies this`free
      ensures -1 <= i < NUM
      ensures i == -1 ==> free == old(free) && forall j :: 0 <= j < NUM ==> !free[j]
      ensures i >= 0 ==> old(free)[i] && free == old(free)[i := false] && forall j :: 0 <= j < i ==> !old(free)[j]
    {
      i := 0;
      while i < NUM
        invariant 0 <= i <= NUM && free == old(free) && forall j :: 0 <= j < i ==> !free[j]
      {
        if free[i] {
          free := free[i := false];
          return;
        }
        i := i + 1;
      }
      i := -1;
    }

    /** free_desc, where it does not panic. */
    method FreeDesc(i: nat)
      requires |free| == |desc| == NUM && i < NUM && !free[i]
      modifies this`free, this`desc
      ensures free == old(free)[i := true] && desc == old(desc)[i := EMPTY]
    {
      desc := desc[i := EMPTY];
      free := free[i := true];
    }

    /** alloc3_desc: three descriptors or none. A failure leaves the free ones free. */
    method Alloc3() returns (ok: bool, i: nat, j: nat, k: nat)
      requires |free| == |desc| == NUM
      requires forall x: nat :: x < NUM && free[x] ==> desc[x] == EMPTY
      modifies this`free, this`desc
      ensures desc == old(desc)
      ensures !ok ==> free == old(free)
      ensures ok ==> i < NUM && j < NUM && k < NUM && i != j && j != k && i != k && old(free)[i] && old(free)[j] && old(free)[k]
                     && free == old(free)[i := false][j := false][k := false]
      ensures !ok ==> forall x, y, z :: 0 <= x < y < z < NUM ==> !(free[x] && free[y] && free[z])
    {
      ok, i, j, k := false, 0, 0, 0;
      var x := AllocDesc();
      if x < 0 {
        return;
      }
      var y := AllocDesc();
      if y < 0 {
        FreeDesc(x);
        assert free == old(free);
        return;
      }
      var z := AllocDesc();
      if z < 0 {
        FreeDesc(x);
        FreeDesc(y);
        assert free == old(free);
        return;
      }
      return true, x, y, z;
    }

    /** virtio_disk_rw up to the point where it waits for the device; false if there are not three free descriptors, in which
        case the caller sleeps and tries again. A buffer has one request at a time. */
    method Submit(b: nat, write: bool) returns (ok: bool, h: nat)
      requires Valid() && forall g :: g in reqs ==> reqs[g].b != b
      modifies this`free, this`desc, this`avail, this`availIdx, this`info, this`busy, this`slots, this`reqs, this`a
      ensures Valid()
      ensures !ok ==> reqs == old(reqs) && free == old(free) && avail == old(avail) && a == old(a)
      ensures !ok ==> forall x, y, z :: 0 <= x < y < z < NUM ==> !(free[x] && free[y] && free[z])
      ensures ok ==> h !in old(reqs) && h in reqs && reqs == old(reqs)[h := reqs[h]] && a == old(a) + 1
      ensures ok ==> reqs[h].b == b && reqs[h].write == write && reqs[h].phase == Queued(old(a)) && old(a) - d < NUM
    {
      hide RingsOk, AllSlots;
      ghost var free0 := free;
      EmptySlots(free, desc, slots, reqs);
      var i, j;
      ok, h, i, j := Alloc3();
      if ok {
        Post(b, write, h, i, j, free0);
      }
    }

    /** The rest of it: format the descriptors and put the head into the avail ring. */
    method Post(b: nat, write: bool, h: nat, i: nat, j: nat, ghost free0: seq<bool>)
      requires AllSlots(free0, desc, slots, reqs) && RingsOk(avail, used, info, busy, reqs, a, d, u, v) && availIdx == a % UINT16
      requires |free0| == NUM && h < NUM && i < NUM && j < NUM && h != i && h != j && i != j && free0[h] && free0[i] && free0[j]
      requires free == free0[h := false][i := false][j := false] && forall g :: g in reqs ==> reqs[g].b != b
      modifies this`desc, this`avail, this`availIdx, this`info, this`busy, this`slots, this`reqs, this`a
      ensures AllSlots(free, desc, slots, reqs) && RingsOk(avail, used, info, busy, reqs, a, d, u, v) && availIdx == a % UINT16
      ensures h !in old(reqs) && reqs == old(reqs)[h := Req(b, i, j, write, Queued(old(a)))] && a == old(a) + 1 && old(a) - d < NUM
    {
      hide RingsOk, AllSlots, Chained;
      ghost var r := Req(b, i, j, write, Queued(a));
      SlotLengths(free0, desc, slots, reqs);
      NewChain(free0, desc, slots, reqs, h, r);
      Format(b, write, h, i, j, r);
      slots := slots[h := Part(h, 0)][i := Part(h, 1)][j := Part(h, 2)];
      PutAvail(b, h, r);
      reqs := reqs[h := r];
    }

    /** The bookkeeping for the interrupt, and the avail ring. */
    method PutAvail(b: nat, h: nat, ghost r: Req)
      requires RingsOk(avail, used, info, busy, reqs, a, d, u, v) && availIdx == a % UINT16 && h < NUM && h !in reqs
      requires r.b == b && r.phase == Queued(a) && forall g :: g in reqs ==> reqs[g].b != b
      modifies this`avail, this`availIdx, this`info, this`busy, this`a
      ensures RingsOk(avail, used, info, busy, reqs[h := r], a, d, u, v) && availIdx == a % UINT16 && a == old(a) + 1 && old(a) - d < NUM
    {
      hide RingsOk;
      RingOrder(avail, used, info, busy, reqs, a, d, u, v);
      Enqueue(avail, used, info, busy, reqs, a, d, u, v, h, r, 0xff);
      Wraps(a);
      info := info[h := Info(b, 0xff)];
      busy := busy + {b};
      avail := avail[availIdx % NUM := h];
      availIdx := (availIdx + 1) % UINT16;
      a := a + 1;
    }

    /** The three descriptors of a request: header, data, status. */
    method Format(b: nat, write: bool, h: nat, i: nat, j: nat, ghost r: Req)
      requires |desc| == NUM && h < NUM && i < NUM && j < NUM && r.b == b && r.d1 == i && r.d2 == j && r.write == write
      modifies this`desc
      ensures desc == Chained(old(desc), h, r)
    {
      desc := desc[h := Desc(Header(h), 16, F_NEXT, i)];
      desc := desc[i := Desc(DataOf(b), 1024, if write then F_NEXT else F_WRITE + F_NEXT, j)];
      desc := desc[j := Desc(StatusOf(h), 1, F_WRITE, 0)];
    }

    /** The device takes the next request from the avail ring, if there is one. */
    method DeviceTakes() returns (some: bool, h: nat)
      requires Valid()
      modifies this`seen, this`reqs, this`d
      ensures Valid() && (some <==> old(d) < a)
      ensures !some ==> reqs == old(reqs) && d == old(d)
      ensures some ==> h in old(reqs) && old(reqs)[h].phase == Queued(old(d)) && d == old(d) + 1
      ensures some ==> reqs == old(reqs)[h := old(reqs)[h].(phase := Taken)]
    {
      hide AllSlots, RingsOk;
      RingOrder(avail, used, info, busy, reqs, a, d, u, v);
      Bounds(avail, used, info, busy, reqs, a, d, u, v);
      SamePosition(d, a);
      if seen == availIdx {
        return false, 0;
      }
      TakeNext(avail, used, info, busy, reqs, a, d, u, v);
      Wraps(d);
      h := avail[seen % NUM];
      SameChains(free, desc, slots, reqs, h, Taken);
      seen := (seen + 1) % UINT16;
      reqs := reqs[h := reqs[h].(phase := Taken)];
      d := d + 1;
      some := true;
    }

    /** The device puts a request that it has taken into the used ring, with status 0. It may do so in any order. */
    method DeviceReturns(h: nat)
      requires Valid() && h in reqs && reqs[h].phase == Taken
      modifies this`used, this`usedIdxDev, this`info, this`reqs, this`u
      ensures Valid() && u == old(u) + 1 && reqs == old(reqs)[h := old(reqs)[h].(phase := Used(old(u)))] && old(u) - v < NUM
    {
      hide AllSlots, RingsOk;
      RingOrder(avail, used, info, busy, reqs, a, d, u, v);
      Return(avail, used, info, busy, reqs, a, d, u, v, h);
      SameChains(free, desc, slots, reqs, h, Used(u));
      Wraps(u);
      info := info[h := info[h].(status := 0)];
      used := used[usedIdxDev % NUM := h];
      usedIdxDev := (usedIdxDev + 1) % UINT16;
      reqs := reqs[h := reqs[h].(phase := Used(u))];
      u := u + 1;
    }

    /** One round of the loop of virtio_disk_intr. The panic about the status is not reached. */
    method SeeOne()
      requires Valid() && usedIdx != usedIdxDev
      modifies this`usedIdx, this`busy, this`reqs, this`v
      ensures Valid() && v == old(v) + 1 <= u
      ensures Marked(old(reqs), reqs, old(v))
    {
      hide AllSlots, RingsOk;
      SeenSoFar(avail, used, info, busy, reqs, a, d, u, v);
      SeeNext(avail, used, info, busy, reqs, a, d, u, v);
      OnlyOne(avail, used, info, busy, reqs, a, d, u, v);
      Wraps(v);
      var id := used[usedIdx % NUM];
      if info[id].status != 0 {
        assert false;
      }
      var b := info[id].b;
      SameChains(free, desc, slots, reqs, id, Done);
      busy := busy - {b};
      usedIdx := (usedIdx + 1) % UINT16;
      reqs := reqs[id := reqs[id].(phase := Done)];
      v := v + 1;
    }

    /** virtio_disk_intr: every entry of the used ring is seen, and its request done. */
    method Interrupt()
      requires Valid()
      modifies this`usedIdx, this`busy, this`reqs, this`v
      ensures Valid() && v == u && AllMarked(old(reqs), reqs)
    {
      hide AllSlots, RingsOk, Marked, MarkedBelow, AllMarked;
      ghost var r0 := reqs;
      UsedPositions(avail, used, info, busy, reqs, a, d, u, v);
      NoneMarked(r0, v);
      while usedIdx != usedIdxDev
        invariant Valid() && old(v) <= v <= u && MarkedBelow(r0, reqs, v)
        decreases u - v
      {
        ghost var r1 := reqs;
        SeeOne();
        MarkedNext(r0, r1, reqs, v - 1);
      }
      SeenAll(avail, used, info, busy, reqs, a, d, u, v);
      EveryMarked(r0, reqs, v);
    }

    /** free_chain. */
    method FreeChain(h: nat, ghost r: Req)
      requires |free| == |desc| == |slots| == NUM && ChainOk(desc, slots, h, r) && !free[h] && !free[r.d1] && !free[r.d2]
      modifies this`free, this`desc
      ensures free == old(free)[h := true][r.d1 := true][r.d2 := true]
      ensures desc == old(desc)[h := EMPTY][r.d1 := EMPTY][r.d2 := EMPTY]
    {
      var i := h;
      ghost var k := 0;
      while true
        invariant 0 <= k <= 2 && i == Third(h, r, k) && |free| == |desc| == NUM
        invariant free == if k == 0 then old(free) else if k == 1 then old(free)[h := true] else old(free)[h := true][r.d1 := true]
        invariant desc == if k == 0 then old(desc) else if k == 1 then old(desc)[h := EMPTY] else old(desc)[h := EMPTY][r.d1 := EMPTY]
        decreases 2 - k
      {
        var flags, next := desc[i].flags, desc[i].next;
        FreeDesc(i);
        if flags % 2 == 1 {
          i := next;
        } else {
          break;
        }
        k := k + 1;
      }
    }

    /** virtio_disk_rw after the device has finished: the chain is given back. */
    method Finish(h: nat)
      requires Valid() && h in reqs && reqs[h].phase == Done
      modifies this`free, this`desc, this`info, this`slots, this`reqs
      ensures Valid() && reqs == old(reqs) - {h}
    {
      hide RingsOk;
      ghost var r := reqs[h];
      RingOrder(avail, used, info, busy, reqs, a, d, u, v);
      OldChain(free, desc, slots, reqs, h);
      Forget(avail, used, info, busy, reqs, a, d, u, v, h);
      ChainTaken(free, desc, slots, reqs, h);
      info := info[h := info[h].(b := 0)];
      FreeChain(h, r);
      hide AllSlots;
      slots := slots[h := Free][r.d1 := Free][r.d2 := Free];
      reqs := reqs - {h};
    }
  }
}
