/** The virtqueue of the disk: which descriptors are whose, which requests are where, and what the rings say about
    them. */
module Virtqueue {
  import opened Common

  const NUM: nat := 8
  const UINT16: nat := 0x1_0000

  const F_NEXT: nat := 1
  const F_WRITE: nat := 2

  /** What a descriptor points at: a request header, the data of a buffer, the status byte of a request. */
  datatype Addr = Null | Header(i: nat) | DataOf(b: nat) | StatusOf(i: nat)

  datatype Desc = Desc(addr: Addr, len: nat, flags: nat, next: nat)

  const EMPTY: Desc := Desc(Null, 0, 0, 0)

  /** Where a request is: in the avail ring at a position, with the device, in the used ring at a position, or done and
      waiting for its caller. Positions count from the start and do not wrap. */
  datatype Phase = Queued(pos: nat) | Taken | Used(pos: nat) | Done

  /** An outstanding request: its buffer, its second and third descriptor, its direction, and where it is. */
  datatype Req = Req(b: nat, d1: nat, d2: nat, write: bool, phase: Phase)

  /** Who has a descriptor: nobody, or the request with that head, as its k-th descriptor. */
  datatype Slot = Free | Part(head: nat, k: nat)

  datatype Info = Info(b: nat, status: nat)

  type Reqs = map<nat, Req>

  function Third(h: nat, r: Req, k: nat): nat {
    if k == 0 then h else if k == 1 then r.d1 else r.d2
  }

  /** Free descriptors and the chains of outstanding requests share out the descriptors. */
  ghost predicate SlotOk(free: seq<bool>, desc: seq<Desc>, slots: seq<Slot>, reqs: Reqs, i: nat)
    requires |free| == |desc| == |slots| == NUM && i < NUM
  {
    && (free[i] <==> slots[i].Free?) && (free[i] ==> desc[i] == EMPTY)
    && (slots[i].Part? ==> slots[i].head in reqs && slots[i].k < 3 && Third(slots[i].head, reqs[slots[i].head], slots[i].k) == i)
  }

  ghost predicate ChainOk(desc: seq<Desc>, slots: seq<Slot>, h: nat, r: Req)
    requires |desc| == |slots| == NUM
  {
    && h < NUM && r.d1 < NUM && r.d2 < NUM
    && slots[h] == Part(h, 0) && slots[r.d1] == Part(h, 1) && slots[r.d2] == Part(h, 2)
    && desc[h] == Desc(Header(h), 16, F_NEXT, r.d1)
    && desc[r.d1] == Desc(DataOf(r.b), 1024, if r.write then F_NEXT else F_WRITE + F_NEXT, r.d2)
    && desc[r.d2] == Desc(StatusOf(h), 1, F_WRITE, 0)
  }

  /** The phase of a request agrees with the rings: a counts entries put into the avail ring, d those the device has
      taken, u those it has put into the used ring, v those the driver has seen. */
  ghost predicate PhaseOk(avail: seq<nat>, used: seq<nat>, info: seq<Info>, busy: set<nat>, h: nat, r: Req, a: nat, d: nat, u: nat, v: nat)
    requires |avail| == |used| == |info| == NUM && h < NUM
  {
    && info[h].b == r.b && (r.b in busy <==> r.phase != Done)
    && match r.phase
       case Queued(pos) => d <= pos < a && avail[pos % NUM] == h
       case Taken => true
       case Used(pos) => v <= pos < u && used[pos % NUM] == h && info[h].status == 0
       case Done => true
  }

  ghost predicate AvailOk(avail: seq<nat>, reqs: Reqs, pos: nat)
    requires |avail| == NUM
  {
    avail[pos % NUM] in reqs && reqs[avail[pos % NUM]].phase == Queued(pos)
  }

  ghost predicate UsedOk(used: seq<nat>, reqs: Reqs, pos: nat)
    requires |used| == NUM
  {
    used[pos % NUM] in reqs && reqs[used[pos % NUM]].phase == Used(pos)
  }

  ghost predicate Apart(reqs: Reqs) {
    forall g, h :: g in reqs && h in reqs && g != h ==> reqs[g].b != reqs[h].b
  }

  // ----- counting -----

  /** A head that is not queued leaves room in the avail ring. */
  lemma AvailRoom(avail: seq<nat>, reqs: Reqs, d: nat, a: nat, h: nat)
    requires |avail| == NUM && d <= a && h < NUM && (h in reqs ==> !reqs[h].phase.Queued?)
    requires forall pos: nat :: d <= pos < a ==> AvailOk(avail, reqs, pos)
    requires forall g :: g in reqs ==> g < NUM
    ensures a - d < NUM
  {
    var s: seq<nat> := seq(a - d, i requires 0 <= i < a - d => avail[(d + i) % NUM]);
    var t := s + [h];
    forall i, j | 0 <= i < j < |t| ensures t[i] != t[j] {
      assert AvailOk(avail, reqs, d + i);
      if j < |s| {
        assert AvailOk(avail, reqs, d + j);
      }
    }
    forall i | 0 <= i < |t| ensures t[i] < NUM {
      if i < |s| {
        assert AvailOk(avail, reqs, d + i);
      }
    }
    Pigeonhole(t, NUM);
  }

  /** A head that is not in the used ring leaves room there. */
  lemma UsedRoom(used: seq<nat>, reqs: Reqs, v: nat, u: nat, h: nat)
    requires |used| == NUM && v <= u && h < NUM && (h in reqs ==> !reqs[h].phase.Used?)
    requires forall pos: nat :: v <= pos < u ==> UsedOk(used, reqs, pos)
    requires forall g :: g in reqs ==> g < NUM
    ensures u - v < NUM
  {
    var s: seq<nat> := seq(u - v, i requires 0 <= i < u - v => used[(v + i) % NUM]);
    var t := s + [h];
    forall i, j | 0 <= i < j < |t| ensures t[i] != t[j] {
      assert UsedOk(used, reqs, v + i);
      if j < |s| {
        assert UsedOk(used, reqs, v + j);
      }
    }
    forall i | 0 <= i < |t| ensures t[i] < NUM {
      if i < |s| {
        assert UsedOk(used, reqs, v + i);
      }
    }
    Pigeonhole(t, NUM);
  }

  /** The 16-bit counters say where in the ring an entry is, and whether two positions of one ring are the same. */
  lemma Wraps(p: nat)
    ensures p % UINT16 % NUM == p % NUM && (p % UINT16 + 1) % UINT16 == (p + 1) % UINT16
  {
    ModOfMod(p, NUM, 8192, UINT16);
    ModPlus(p, 1, UINT16);
  }

  lemma SamePosition(v: nat, u: nat)
    requires v <= u <= v + NUM
    ensures v % UINT16 == u % UINT16 <==> v == u
  {
  }

  /** Positions that share a slot of the ring are a whole ring apart. */
  lemma RingSlots(d: nat, a: nat)
    requires d <= a < d + NUM
    ensures forall pos: nat :: d <= pos < a ==> pos % NUM != a % NUM
  {
  }

  // ----- the steps of a request -----

  function Chained(desc: seq<Desc>, h: nat, r: Req): seq<Desc>
    requires |desc| == NUM && h < NUM && r.d1 < NUM && r.d2 < NUM
  {
    desc[h := Desc(Header(h), 16, F_NEXT, r.d1)]
        [r.d1 := Desc(DataOf(r.b), 1024, if r.write then F_NEXT else F_WRITE + F_NEXT, r.d2)]
        [r.d2 := Desc(StatusOf(h), 1, F_WRITE, 0)]
  }

  ghost predicate AllSlots(free: seq<bool>, desc: seq<Desc>, slots: seq<Slot>, reqs: Reqs) {
    && |free| == |desc| == |slots| == NUM
    && (forall i: nat :: i < NUM ==> SlotOk(free, desc, slots, reqs, i))
    && (forall h :: h in reqs ==> ChainOk(desc, slots, h, reqs[h]))
  }

  /** Three free descriptors become the chain of a new request. */
  lemma NewChain(free: seq<bool>, desc: seq<Desc>, slots: seq<Slot>, reqs: Reqs, h: nat, r: Req)
    requires AllSlots(free, desc, slots, reqs) && h < NUM && r.d1 < NUM && r.d2 < NUM && h != r.d1 && h != r.d2 && r.d1 != r.d2
    requires free[h] && free[r.d1] && free[r.d2]
    ensures h !in reqs
    ensures AllSlots(free[h := false][r.d1 := false][r.d2 := false], Chained(desc, h, r),
                     slots[h := Part(h, 0)][r.d1 := Part(h, 1)][r.d2 := Part(h, 2)], reqs[h := r])
  {
    assert SlotOk(free, desc, slots, reqs, h) && SlotOk(free, desc, slots, reqs, r.d1) && SlotOk(free, desc, slots, reqs, r.d2);
    forall g | g in reqs ensures g != h {
      assert ChainOk(desc, slots, g, reqs[g]);
    }
    var free', desc' := free[h := false][r.d1 := false][r.d2 := false], Chained(desc, h, r);
    var slots', reqs' := slots[h := Part(h, 0)][r.d1 := Part(h, 1)][r.d2 := Part(h, 2)], reqs[h := r];
    forall i: nat | i < NUM ensures SlotOk(free', desc', slots', reqs', i) {
      assert SlotOk(free, desc, slots, reqs, i);
    }
    forall g | g in reqs' ensures ChainOk(desc', slots', g, reqs'[g]) {
      assert g in reqs ==> ChainOk(desc, slots, g, reqs[g]);
    }
  }

  /** The chain of a request becomes free. */
  lemma OldChain(free: seq<bool>, desc: seq<Desc>, slots: seq<Slot>, reqs: Reqs, h: nat)
    requires AllSlots(free, desc, slots, reqs) && h in reqs
    ensures var r := reqs[h];
            && h < NUM && r.d1 < NUM && r.d2 < NUM && h != r.d1 && h != r.d2 && r.d1 != r.d2
            && AllSlots(free[h := true][r.d1 := true][r.d2 := true], desc[h := EMPTY][r.d1 := EMPTY][r.d2 := EMPTY],
                        slots[h := Free][r.d1 := Free][r.d2 := Free], reqs - {h})
  {
    var r := reqs[h];
    assert ChainOk(desc, slots, h, r);
    var free', desc' := free[h := true][r.d1 := true][r.d2 := true], desc[h := EMPTY][r.d1 := EMPTY][r.d2 := EMPTY];
    var slots', reqs' := slots[h := Free][r.d1 := Free][r.d2 := Free], reqs - {h};
    forall i: nat | i < NUM ensures SlotOk(free', desc', slots', reqs', i) {
      assert SlotOk(free, desc, slots, reqs, i);
    }
    forall g | g in reqs' ensures ChainOk(desc', slots', g, reqs'[g]) {
      assert ChainOk(desc, slots, g, reqs[g]);
    }
  }

  /** Where a request is does not matter to its chain. */
  lemma SameChains(free: seq<bool>, desc: seq<Desc>, slots: seq<Slot>, reqs: Reqs, h: nat, phase: Phase)
    requires AllSlots(free, desc, slots, reqs) && h in reqs
    ensures AllSlots(free, desc, slots, reqs[h := reqs[h].(phase := phase)])
  {
    var reqs' := reqs[h := reqs[h].(phase := phase)];
    forall i: nat | i < NUM ensures SlotOk(free, desc, slots, reqs', i) {
      assert SlotOk(free, desc, slots, reqs, i);
    }
    forall g | g in reqs' ensures ChainOk(desc, slots, g, reqs'[g]) {
      assert ChainOk(desc, slots, g, reqs[g]);
    }
  }

  /** What the rings say about the requests. */
  ghost predicate RingsOk(avail: seq<nat>, used: seq<nat>, info: seq<Info>, busy: set<nat>, reqs: Reqs, a: nat, d: nat, u: nat, v: nat) {
    && |avail| == |used| == |info| == NUM && v <= u && d <= a
    && (forall h :: h in reqs ==> h < NUM && PhaseOk(avail, used, info, busy, h, reqs[h], a, d, u, v))
    && (forall pos: nat :: d <= pos < a ==> AvailOk(avail, reqs, pos))
    && (forall pos: nat :: v <= pos < u ==> UsedOk(used, reqs, pos))
    && Apart(reqs)
  }

  lemma Bounds(avail: seq<nat>, used: seq<nat>, info: seq<Info>, busy: set<nat>, reqs: Reqs, a: nat, d: nat, u: nat, v: nat)
    requires RingsOk(avail, used, info, busy, reqs, a, d, u, v)
    ensures a - d <= NUM && u - v <= NUM
  {
    if a > d {
      var h := avail[(a - 1) % NUM];
      assert AvailOk(avail, reqs, a - 1);
      var reqs' := reqs[h := reqs[h].(phase := Done)];
      forall pos: nat | d <= pos < a - 1 ensures AvailOk(avail, reqs', pos) {
        assert AvailOk(avail, reqs, pos);
      }
      AvailRoom(avail, reqs', d, a - 1, h);
    }
    if u > v {
      var h := used[(u - 1) % NUM];
      assert UsedOk(used, reqs, u - 1);
      var reqs' := reqs[h := reqs[h].(phase := Done)];
      forall pos: nat | v <= pos < u - 1 ensures UsedOk(used, reqs', pos) {
        assert UsedOk(used, reqs, pos);
      }
      UsedRoom(used, reqs', v, u - 1, h);
    }
  }

  /** A new request at the end of the avail ring overwrites nothing that the device has not read. */
  lemma Enqueue(avail: seq<nat>, used: seq<nat>, info: seq<Info>, busy: set<nat>, reqs: Reqs, a: nat, d: nat, u: nat, v: nat, h: nat, r: Req, status: nat)
    requires RingsOk(avail, used, info, busy, reqs, a, d, u, v) && h < NUM && h !in reqs && r.phase == Queued(a)
    requires forall g :: g in reqs ==> reqs[g].b != r.b
    ensures a - d < NUM
    ensures RingsOk(avail[a % NUM := h], used, info[h := Info(r.b, status)], busy + {r.b}, reqs[h := r], a + 1, d, u, v)
  {
    AvailRoom(avail, reqs, d, a, h);
    RingSlots(d, a);
    var avail', info', reqs' := avail[a % NUM := h], info[h := Info(r.b, status)], reqs[h := r];
    forall g | g in reqs' ensures g < NUM && PhaseOk(avail', used, info', busy + {r.b}, g, reqs'[g], a + 1, d, u, v) {
      assert g in reqs ==> PhaseOk(avail, used, info, busy, g, reqs[g], a, d, u, v);
    }
    forall pos: nat | d <= pos < a + 1 ensures AvailOk(avail', reqs', pos) {
      assert pos < a ==> AvailOk(avail, reqs, pos);
    }
    forall pos: nat | v <= pos < u ensures UsedOk(used, reqs', pos) {
      assert UsedOk(used, reqs, pos);
    }
  }

  /** The device takes the next request. */
  lemma TakeNext(avail: seq<nat>, used: seq<nat>, info: seq<Info>, busy: set<nat>, reqs: Reqs, a: nat, d: nat, u: nat, v: nat)
    requires RingsOk(avail, used, info, busy, reqs, a, d, u, v) && d < a
    ensures var h := avail[d % NUM];
            h in reqs && reqs[h].phase == Queued(d) && RingsOk(avail, used, info, busy, reqs[h := reqs[h].(phase := Taken)], a, d + 1, u, v)
  {
    var h := avail[d % NUM];
    assert AvailOk(avail, reqs, d);
    var reqs' := reqs[h := reqs[h].(phase := Taken)];
    forall g | g in reqs' ensures g < NUM && PhaseOk(avail, used, info, busy, g, reqs'[g], a, d + 1, u, v) {
      assert PhaseOk(avail, used, info, busy, g, reqs[g], a, d, u, v);
    }
    forall pos: nat | d + 1 <= pos < a ensures AvailOk(avail, reqs', pos) {
      assert AvailOk(avail, reqs, pos);
    }
    forall pos: nat | v <= pos < u ensures UsedOk(used, reqs', pos) {
      assert UsedOk(used, reqs, pos);
    }
  }

  /** The device returns a request that it has; the used ring has room for it. */
  lemma Return(avail: seq<nat>, used: seq<nat>, info: seq<Info>, busy: set<nat>, reqs: Reqs, a: nat, d: nat, u: nat, v: nat, h: nat)
    requires RingsOk(avail, used, info, busy, reqs, a, d, u, v) && h in reqs && reqs[h].phase == Taken
    ensures h < NUM && u - v < NUM
    ensures RingsOk(avail, used[u % NUM := h], info[h := info[h].(status := 0)], busy, reqs[h := reqs[h].(phase := Used(u))], a, d, u + 1, v)
  {
    UsedRoom(used, reqs, v, u, h);
    RingSlots(v, u);
    var used', info', reqs' := used[u % NUM := h], info[h := info[h].(status := 0)], reqs[h := reqs[h].(phase := Used(u))];
    forall g | g in reqs' ensures g < NUM && PhaseOk(avail, used', info', busy, g, reqs'[g], a, d, u + 1, v) {
      assert PhaseOk(avail, used, info, busy, g, reqs[g], a, d, u, v);
    }
    forall pos: nat | d <= pos < a ensures AvailOk(avail, reqs', pos) {
      assert AvailOk(avail, reqs, pos);
    }
    forall pos: nat | v <= pos < u + 1 ensures UsedOk(used', reqs', pos) {
      assert pos < u ==> UsedOk(used, reqs, pos);
    }
  }

  /** The driver sees the next entry of the used ring: it names an outstanding request, whose buffer it is and whose status
      says success. */
  lemma SeeNext(avail: seq<nat>, used: seq<nat>, info: seq<Info>, busy: set<nat>, reqs: Reqs, a: nat, d: nat, u: nat, v: nat)
    requires RingsOk(avail, used, info, busy, reqs, a, d, u, v) && v < u
    ensures var h := used[v % NUM];
            && h in reqs && h < NUM && reqs[h].phase == Used(v) && info[h] == Info(reqs[h].b, 0)
            && RingsOk(avail, used, info, busy - {reqs[h].b}, reqs[h := reqs[h].(phase := Done)], a, d, u, v + 1)
  {
    var h := used[v % NUM];
    assert UsedOk(used, reqs, v);
    assert PhaseOk(avail, used, info, busy, h, reqs[h], a, d, u, v);
    var busy', reqs' := busy - {reqs[h].b}, reqs[h := reqs[h].(phase := Done)];
    forall g | g in reqs' ensures g < NUM && PhaseOk(avail, used, info, busy', g, reqs'[g], a, d, u, v + 1) {
      assert PhaseOk(avail, used, info, busy, g, reqs[g], a, d, u, v);
      assert g != h ==> reqs[g].b != reqs[h].b;
    }
    forall pos: nat | d <= pos < a ensures AvailOk(avail, reqs', pos) {
      assert AvailOk(avail, reqs, pos);
    }
    forall pos: nat | v + 1 <= pos < u ensures UsedOk(used, reqs', pos) {
      assert UsedOk(used, reqs, pos);
    }
  }

  /** A request that is done is forgotten. */
  lemma Forget(avail: seq<nat>, used: seq<nat>, info: seq<Info>, busy: set<nat>, reqs: Reqs, a: nat, d: nat, u: nat, v: nat, h: nat)
    requires RingsOk(avail, used, info, busy, reqs, a, d, u, v) && h in reqs && reqs[h].phase == Done
    ensures h < NUM && RingsOk(avail, used, info[h := info[h].(b := 0)], busy, reqs - {h}, a, d, u, v)
  {
    var info', reqs' := info[h := info[h].(b := 0)], reqs - {h};
    forall g | g in reqs' ensures g < NUM && PhaseOk(avail, used, info', busy, g, reqs'[g], a, d, u, v) {
      assert PhaseOk(avail, used, info, busy, g, reqs[g], a, d, u, v);
    }
    forall pos: nat | d <= pos < a ensures AvailOk(avail, reqs', pos) {
      assert AvailOk(avail, reqs, pos);
    }
    forall pos: nat | v <= pos < u ensures UsedOk(used, reqs', pos) {
      assert UsedOk(used, reqs, pos);
    }
  }

  lemma SlotLengths(free: seq<bool>, desc: seq<Desc>, slots: seq<Slot>, reqs: Reqs)
    requires AllSlots(free, desc, slots, reqs)
    ensures |free| == |desc| == |slots| == NUM
  {
  }

  lemma EmptySlots(free: seq<bool>, desc: seq<Desc>, slots: seq<Slot>, reqs: Reqs)
    requires AllSlots(free, desc, slots, reqs)
    ensures |free| == |desc| == |slots| == NUM && forall x: nat :: x < NUM && free[x] ==> desc[x] == EMPTY
  {
    forall x: nat | x < NUM && free[x] ensures desc[x] == EMPTY {
      assert SlotOk(free, desc, slots, reqs, x);
    }
  }

  lemma ChainTaken(free: seq<bool>, desc: seq<Desc>, slots: seq<Slot>, reqs: Reqs, h: nat)
    requires AllSlots(free, desc, slots, reqs) && h in reqs
    ensures ChainOk(desc, slots, h, reqs[h]) && !free[h] && !free[reqs[h].d1] && !free[reqs[h].d2]
  {
    assert ChainOk(desc, slots, h, reqs[h]);
    assert SlotOk(free, desc, slots, reqs, h) && SlotOk(free, desc, slots, reqs, reqs[h].d1) && SlotOk(free, desc, slots, reqs, reqs[h].d2);
  }

  lemma RingOrder(avail: seq<nat>, used: seq<nat>, info: seq<Info>, busy: set<nat>, reqs: Reqs, a: nat, d: nat, u: nat, v: nat)
    requires RingsOk(avail, used, info, busy, reqs, a, d, u, v)
    ensures d <= a && v <= u && |avail| == |used| == |info| == NUM
  {
  }

  lemma UsedPositions(avail: seq<nat>, used: seq<nat>, info: seq<Info>, busy: set<nat>, reqs: Reqs, a: nat, d: nat, u: nat, v: nat)
    requires RingsOk(avail, used, info, busy, reqs, a, d, u, v)
    ensures v <= u && forall h :: h in reqs && reqs[h].phase.Used? ==> v <= reqs[h].phase.pos < u
  {
  }

  lemma SeenSoFar(avail: seq<nat>, used: seq<nat>, info: seq<Info>, busy: set<nat>, reqs: Reqs, a: nat, d: nat, u: nat, v: nat)
    requires RingsOk(avail, used, info, busy, reqs, a, d, u, v)
    ensures v <= u && |avail| == |used| == |info| == NUM && (v % UINT16 == u % UINT16 <==> v == u)
  {
    Bounds(avail, used, info, busy, reqs, a, d, u, v);
    SamePosition(v, u);
  }

  lemma SeenAll(avail: seq<nat>, used: seq<nat>, info: seq<Info>, busy: set<nat>, reqs: Reqs, a: nat, d: nat, u: nat, v: nat)
    requires RingsOk(avail, used, info, busy, reqs, a, d, u, v) && v % UINT16 == u % UINT16
    ensures v == u
  {
    SeenSoFar(avail, used, info, busy, reqs, a, d, u, v);
  }

  /** One request at most is at a position of the used ring. */
  lemma OnlyOne(avail: seq<nat>, used: seq<nat>, info: seq<Info>, busy: set<nat>, reqs: Reqs, a: nat, d: nat, u: nat, v: nat)
    requires RingsOk(avail, used, info, busy, reqs, a, d, u, v)
    ensures |used| == NUM && forall h :: h in reqs && reqs[h].phase == Used(v) ==> h == used[v % NUM]
  {
  }

  // ----- the effect of an interrupt -----

  /** The request at position v of the used ring is done; the others are where they were. */
  ghost predicate Marked(reqs: Reqs, reqs': Reqs, v: nat) {
    reqs'.Keys == reqs.Keys
    && forall h :: h in reqs ==> reqs'[h] == if reqs[h].phase == Used(v) then reqs[h].(phase := Done) else reqs[h]
  }

  /** So are all those at positions below v. */
  ghost predicate MarkedBelow(reqs: Reqs, reqs': Reqs, v: nat) {
    reqs'.Keys == reqs.Keys
    && forall h :: h in reqs ==> reqs'[h] == if reqs[h].phase.Used? && reqs[h].phase.pos < v then reqs[h].(phase := Done) else reqs[h]
  }

  ghost predicate AllMarked(reqs: Reqs, reqs': Reqs) {
    reqs'.Keys == reqs.Keys
    && forall h :: h in reqs ==> reqs'[h] == if reqs[h].phase.Used? then reqs[h].(phase := Done) else reqs[h]
  }

  lemma NoneMarked(reqs: Reqs, v: nat)
    requires forall h :: h in reqs && reqs[h].phase.Used? ==> v <= reqs[h].phase.pos
    ensures MarkedBelow(reqs, reqs, v)
  {
  }

  lemma MarkedNext(r0: Reqs, r1: Reqs, r2: Reqs, v: nat)
    requires MarkedBelow(r0, r1, v) && Marked(r1, r2, v)
    ensures MarkedBelow(r0, r2, v + 1)
  {
  }

  lemma EveryMarked(reqs: Reqs, reqs': Reqs, u: nat)
    requires MarkedBelow(reqs, reqs', u) && forall h :: h in reqs && reqs[h].phase.Used? ==> reqs[h].phase.pos < u
    ensures AllMarked(reqs, reqs')
  {
  }
}
