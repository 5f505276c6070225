/** umalloc.c: the user heap. A header is the unit of address and size. */
module Heap {
  import opened Common
  import opened FreeList

  /** The position on the list after which b belongs. */
  ghost function Place(l: seq<nat>, b: nat): (k: nat)
    requires 0 < |l| && l[0] < b
    ensures k < |l| && l[k] < b && (k + 1 < |l| ==> b <= l[k + 1])
  {
    if l[|l| - 1] < b then |l| - 1 else Place(l[..|l| - 1], b)
  }

  /** The position t steps behind the successor of position f. */
  ghost function Pos(n: nat, f: nat, t: nat): (i: nat)
    requires f < n && t < n
    ensures i < n
  {
    if f + 1 + t < n then f + 1 + t else f + 1 + t - n
  }

  /** The header units that a request takes: its bytes rounded up, and one for the header. */
  function Units(nbytes: nat): (n: nat)
    ensures n > 0 && (n - 1) * 16 >= nbytes && (n - 1) * 16 < nbytes + 16
  {
    (nbytes + 15) / 16 + 1
  }

  function Max(a: nat, b: nat): nat {
    if a < b then b else a
  }

  /** The first t blocks of the search are too small. */
  ghost predicate Passed(l: seq<nat>, sz: Words, f: nat, t: nat, n: nat) {
    f < |l| && t <= |l| && forall s: nat :: s < t ==> Small(l, sz, Pos(|l|, f, s), n)
  }

  ghost predicate Small(l: seq<nat>, sz: Words, i: nat, n: nat) {
    i < |l| && l[i] in sz && sz[l[i]] < n
  }

  lemma NonePassed(l: seq<nat>, sz: Words, f: nat, n: nat)
    requires f < |l|
    ensures Passed(l, sz, f, 0, n) && Pos(|l|, f, 0) == if f + 1 < |l| then f + 1 else 0
  {
  }

  lemma PassedMore(l: seq<nat>, sz: Words, f: nat, t: nat, n: nat)
    requires Passed(l, sz, f, t, n) && t < |l| && Small(l, sz, Pos(|l|, f, t), n)
    ensures Passed(l, sz, f, t + 1, n)
  {
  }

  /** Once around, and every block was too small: there was no block large enough. */
  lemma AllPassed(l: seq<nat>, sz: Words, f: nat, t: nat, w: nat, n: nat, calls: nat)
    requires Passed(l, sz, f, t + 1, n) && t < |l| && Pos(|l|, f, t) == f
    requires calls == 1 ==> w < |l| && l[Pos(|l|, f, w)] in sz && sz[l[Pos(|l|, f, w)]] >= n
    ensures calls != 1
  {
  }

  lemma SamePlace(l: seq<nat>, ptr: Words, sz: Words, base: nat, f: nat, i: nat)
    requires ListOk(l, ptr, sz, base) && f < |l| && i < |l| && l[f] == l[i]
    ensures f == i
  {
  }

  lemma NotLast(l: seq<nat>, f: nat, t: nat)
    requires f < |l| && t < |l| && l[Pos(|l|, f, t)] != l[f]
    ensures t + 1 < |l| && Pos(|l|, f, t + 1) == if Pos(|l|, f, t) + 1 < |l| then Pos(|l|, f, t) + 1 else 0
  {
  }

  lemma Before(l: seq<nat>, f: nat, t: nat)
    requires f < |l| && t < |l|
    ensures Pos(|l|, f, t) > 0 ==> (if t == 0 then f else Pos(|l|, f, t - 1)) == Pos(|l|, f, t) - 1
  {
  }

  /** Once around the list, every block has been looked at. */
  lemma NoneLarge(l: seq<nat>, sz: Words, base: nat, f: nat, t: nat, n: nat)
    requires Passed(l, sz, f, t + 1, n) && t < |l| && Pos(|l|, f, t) == f
    ensures forall b :: FreeBlock(l, base, b) ==> b in sz && sz[b] < n
  {
    forall b | FreeBlock(l, base, b) ensures b in sz && sz[b] < n {
      var w := StepsTo(l, base, f, b);
      assert Small(l, sz, Pos(|l|, f, w), n);
    }
  }

  lemma StepsTo(l: seq<nat>, base: nat, f: nat, b: nat) returns (w: nat)
    requires f < |l| && FreeBlock(l, base, b)
    ensures w < |l| && l[Pos(|l|, f, w)] == b
  {
    var i := Position(l, b);
    w := if i > f then i - f - 1 else i - f - 1 + |l|;
  }

  class Heap {
    const base: nat
    var ptr: Words
    var sz: Words
    var freep: nat
    // the free list in address order, the blocks handed out, who has each unit, and the end of the memory obtained
    ghost var l: seq<nat>
    ghost var live: map<nat, nat>
    ghost var own: map<nat, nat>
    ghost var top: nat

    ghost predicate Valid()
      reads this
    {
      && 0 < base < top && (forall u :: u in own ==> base < u < top)
      && if freep == 0 then live == map[] && own == map[] else Ready()
    }

    ghost predicate Ready()
      reads this
    {
      freep in l && ListOk(l, ptr, sz, base) && Shared(l, sz, live, own, base) && ApartBut(l, sz, 0, 0)
    }

    constructor (base: nat, top: nat)
      requires 0 < base < top
      ensures Valid() && live == map[] && own == map[] && this.base == base && this.top == top
    {
      this.base := base;
      ptr := map[];
      sz := map[];
      freep := 0;
      l, live, own := [], map[], map[];
      this.top := top;
    }

    /** The search of free: where on the list does b belong? */
    method FindPlace(b: nat) returns (p: nat, ghost k: nat)
      requires freep in l && ListOk(l, ptr, sz, base) && base < b && b !in l
      ensures k < |l| && p == l[k] < b && (k + 1 < |l| ==> b < l[k + 1])
    {
      ghost var place := Place(l, b);
      p := freep;
      k := Position(l, freep);
      while true
        invariant k < |l| && p == l[k]
        decreases if k <= place then place - k else place - k + |l|
      {
        assert NodeOk(l, ptr, sz, k);
        if b > p && b < ptr[p] {
          break;
        }
        if p >= ptr[p] && (b > p || b < ptr[p]) {
          break;
        }
        p := ptr[p];
        k := if k + 1 < |l| then k + 1 else 0;
      }
    }

    /** The first half of the linking in free: join with the block above. The link from p is made last. */
    method JoinAbove(p: nat, bp: nat, ghost k: nat)
      requires p in ptr && ListOk(l, ptr[bp := ptr[p]][p := bp], sz, base) && Shared(l, sz, live, own, base) && ApartBut(l, sz, k, k + 1)
      requires k + 1 < |l| && l[k] == p && l[k + 1] == bp && p < bp && bp in sz
      modifies this`ptr, this`sz, this`l, this`own
      ensures ListOk(l, ptr[p := bp], sz, base) && Shared(l, sz, live, own, base) && ApartBut(l, sz, k, k)
      ensures k + 1 < |l| && l[k] == p && l[k + 1] == bp && own.Keys == old(own).Keys && bp in ptr && bp in sz && sz[bp] >= old(sz)[bp]
    {
      hide ListOk, Shared, ApartBut, NodeOk, Inserted, Merged, Given;
      if bp + sz[bp] == ptr[p] {
        JoinedAbove(l, ptr, sz, live, own, base, p, bp, k);
        GivenKeys(own, ptr[p], bp);
        own := Given(own, ptr[p], bp);
        l := Merged(l, k + 1);
        sz := sz[bp := sz[bp] + sz[ptr[p]]];
        ptr := ptr[bp := ptr[ptr[p]]];
      } else {
        Node(l, ptr[bp := ptr[p]][p := bp], sz, base, k + 1);
        OneGap(l, sz, k, k + 1);
        ptr := ptr[bp := ptr[p]];
      }
    }

    /** The second half: join with the block below, or link it to bp. */
    method JoinBelow(p: nat, bp: nat, ghost k: nat) returns (ghost b: nat)
      requires ListOk(l, ptr[p := bp], sz, base) && Shared(l, sz, live, own, base) && ApartBut(l, sz, k, k)
      requires k + 1 < |l| && l[k] == p && l[k + 1] == bp && p < bp && bp in ptr && bp in sz
      modifies this`ptr, this`sz, this`l, this`own
      ensures ListOk(l, ptr, sz, base) && Shared(l, sz, live, own, base) && ApartBut(l, sz, 0, 0)
      ensures p in l && own.Keys == old(own).Keys && FreeBlock(l, base, b) && b in sz && sz[b] >= old(sz)[bp]
    {
      hide ListOk, Shared, ApartBut, NodeOk, Inserted, Merged, Given;
      ghost var ptr1 := ptr[p := bp];
      Node(l, ptr1, sz, base, k);
      Node(l, ptr1, sz, base, k + 1);
      b := bp;
      if p + sz[p] == bp {
        MergeOk(l, ptr1, sz, live, own, base, k);
        OneOpen(l, sz, k);
        MergeGaps(l, sz, k, 0);
        MergedAt(l, k);
        GivenKeys(own, bp, p);
        own := Given(own, bp, p);
        l := Merged(l, k);
        sz := sz[p := sz[p] + sz[bp]];
        ptr := ptr[p := ptr[bp]];
        b := p;
        assert ptr == ptr1[p := ptr1[bp]];
      } else {
        OneGap(l, sz, k, k);
        ptr := ptr[p := bp];
      }
      Node(l, ptr, sz, base, k);
    }

    /** free: the block goes back to the list, joined with free neighbours; b is where it now is. */
    method Free(ap: nat) returns (ghost b: nat)
      requires Valid() && ap > 0 && ap - 1 in live
      modifies this`ptr, this`sz, this`freep, this`l, this`live, this`own
      ensures Valid() && freep != 0 && live == old(live) - {ap - 1} && own.Keys == old(own).Keys
      ensures FreeBlock(l, base, b) && b in sz && sz[b] >= old(live)[ap - 1]
    {
      hide ListOk, Shared, ApartBut, NodeOk, Inserted, Merged, Given, Place, Pos;
      var bp := ap - 1;
      LiveBlock(l, sz, live, own, base, bp);
      var p;
      ghost var k;
      p, k := FindPlace(bp);
      Node(l, ptr, sz, base, k);
      InsertOk(l, ptr, sz, live, own, base, k, bp);
      InsertGaps(l, sz, k, bp);
      InsertedAt(l, k, bp);
      l := Inserted(l, k, bp);
      live := live - {bp};
      JoinAbove(p, bp, k);
      b := JoinBelow(p, bp, k);
      Node(l, ptr, sz, base, 0);
      freep := p;
    }

    /** morecore: core is where the kernel puts the new memory, if it grants any. */
    method MoreCore(nunits: nat, core: Option<nat>) returns (p: nat, ghost b: nat)
      requires Valid() && freep != 0 && nunits > 0 && (core.Some? ==> core.value >= top)
      modifies this`ptr, this`sz, this`freep, this`l, this`live, this`own, this`top
      ensures Valid() && freep != 0 && live == old(live)
      ensures core.None? ==> p == 0 && freep == old(freep) && l == old(l) && sz == old(sz) && own == old(own) && top == old(top)
      ensures core.Some? ==>
                && p == freep && FreeBlock(l, base, b) && b in sz && sz[b] >= nunits
                && top == core.value + Max(nunits, 4096)
                && forall u: nat :: u in own <==> u in old(own) || core.value <= u < top
    {
      hide ListOk, Shared, ApartBut, FreeBlock, Fresh;
      var nu := Max(nunits, 4096);
      if core.None? {
        return 0, 0;
      }
      var hp := core.value;
      CoreOk(l, ptr, sz, live, own, base, hp, nu);
      sz := sz[hp := nu];
      live := live[hp := nu];
      forall u: nat ensures u in Fresh(own, hp, nu) <==> u in own || hp <= u < hp + nu {
        FreshAt(own, hp, nu, u);
      }
      own := Fresh(own, hp, nu);
      top := hp + nu;
      b := Free(hp + 1);
      assert live == old(live);
      p := freep;
    }

    /** The block at p is just large enough: it leaves the list. */
    method TakeWhole(prevp: nat, p: nat, ghost i: nat)
      requires Valid() && freep != 0 && 1 <= i < |l| && l[i] == p && l[i - 1] == prevp && p in sz
      modifies this`ptr, this`freep, this`l, this`live
      ensures Valid() && freep != 0 && p !in old(live) && live == old(live)[p := sz[p]]
    {
      hide ListOk, Shared, ApartBut, FreeBlock, Merged, NodeOk;
      Node(l, ptr, sz, base, i);
      Node(l, ptr, sz, base, i - 1);
      NotLive(l, sz, live, own, base, p);
      UnlinkOk(l, ptr, sz, live, own, base, i - 1);
      MergedAt(l, i - 1);
      ptr := ptr[prevp := ptr[p]];
      live := live[p := sz[p]];
      l := Merged(l, i - 1);
      assert l[i - 1] == prevp;
      Node(l, ptr, sz, base, i - 1);
      freep := prevp;
    }

    /** The block at p is larger than needed: its end is handed out. */
    method TakeEnd(prevp: nat, p: nat, nunits: nat, ghost i: nat) returns (a: nat)
      requires Valid() && freep != 0 && 1 <= i < |l| && l[i] == p && l[i - 1] == prevp && p in sz && sz[p] > nunits > 0
      modifies this`sz, this`freep, this`live, this`own
      ensures Valid() && freep != 0 && a !in old(live) && live == old(live)[a := nunits] && own.Keys == old(own).Keys
    {
      hide ListOk, Shared, ApartBut, FreeBlock, Merged, NodeOk, Cut;
      Node(l, ptr, sz, base, i);
      Node(l, ptr, sz, base, i - 1);
      SplitOk(l, ptr, sz, live, own, base, i, nunits);
      sz := sz[p := sz[p] - nunits];
      a := p + sz[p];
      sz := sz[a := nunits];
      live := live[a := nunits];
      CutKeys(own, p, a);
      own := Cut(own, p, a);
      freep := prevp;
    }

    /** The end of malloc's search: the block at p has room for nunits. */
    method Take(prevp: nat, p: nat, nunits: nat, ghost i: nat) returns (a: nat)
      requires Valid() && freep != 0 && 1 <= i < |l| && l[i] == p && l[i - 1] == prevp && p in sz && sz[p] >= nunits > 0
      modifies this`ptr, this`sz, this`freep, this`l, this`live, this`own
      ensures Valid() && freep != 0 && a !in old(live) && live == old(live)[a := nunits] && own.Keys == old(own).Keys
    {
      if sz[p] == nunits {
        TakeWhole(prevp, p, i);
        a := p;
      } else {
        a := TakeEnd(prevp, p, nunits, i);
      }
    }

    /** The initialisation in malloc. */
    method Init()
      requires Valid()
      modifies this`ptr, this`sz, this`freep, this`l
      ensures Valid() && freep != 0 && live == old(live) && own == old(own)
      ensures old(freep) != 0 ==> freep == old(freep) && l == old(l) && sz == old(sz)
    {
      if freep == 0 {
        ptr := ptr[base := base];
        freep := base;
        sz := sz[base := 0];
        l := [base];
        EmptyList(ptr, sz, base);
      }
    }

    /** The search begins again with more memory, if the kernel grants it: at freep, with a large enough block w
        steps ahead. */
    method Refill(nunits: nat, core: Option<nat>, ghost f: nat) returns (p: nat, ghost f': nat, ghost w: nat)
      requires Valid() && freep != 0 && nunits > 0 && (core.Some? ==> core.value >= top)
      modifies this`ptr, this`sz, this`freep, this`l, this`live, this`own, this`top
      ensures Valid() && freep != 0 && live == old(live)
      ensures core.None? ==> p == 0 && l == old(l) && sz == old(sz) && own == old(own)
      ensures core.Some? ==> p == freep && f' < |l| && l[f'] == freep && p in ptr && Passed(l, sz, f', 0, nunits)
      ensures core.Some? ==> w < |l| && l[Pos(|l|, f', w)] in sz && sz[l[Pos(|l|, f', w)]] >= nunits
      ensures core.Some? ==> ptr[p] == l[Pos(|l|, f', 0)]
      ensures core.Some? ==> forall u: nat :: u in own <==> u in old(own) || core.value <= u < top
    {
      hide ListOk, Shared, ApartBut, FreeBlock, NodeOk, Passed;
      ghost var b;
      p, b := MoreCore(nunits, core);
      f', w := f, 0;
      if p != 0 {
        f' := Position(l, freep);
        w := StepsTo(l, base, f', b);
        NonePassed(l, sz, f', nunits);
        Node(l, ptr, sz, base, f');
      }
    }

    /** malloc, for requests whose size in bytes sbrk can express. calls counts the calls of morecore. */
    method Malloc(nbytes: nat, core: Option<nat>) returns (ap: nat, ghost calls: nat)
      requires Valid() && Max(Units(nbytes), 4096) * 16 < 0x8000_0000 && (core.Some? ==> core.value >= top)
      modifies this`ptr, this`sz, this`freep, this`l, this`live, this`own, this`top
      ensures Valid() && calls <= 1
      ensures ap == 0 ==> live == old(live) && core.None? && calls == 1 && own == old(own)
      ensures ap == 0 ==> forall b :: FreeBlock(l, base, b) ==> b in sz && sz[b] < Units(nbytes)
      ensures ap != 0 ==> ap - 1 !in old(live) && live == old(live)[ap - 1 := Units(nbytes)]
      ensures if calls == 1 && ap != 0 then core.Some? && forall u: nat :: u in own <==> u in old(own) || core.value <= u < top else own.Keys == old(own).Keys
    {
      hide ListOk, Shared, ApartBut, FreeBlock, NodeOk, Units, Pos, Passed;
      var nunits := Units(nbytes);
      calls := 0;
      Init();
      ghost var f: nat := Position(l, freep);
      ghost var t: nat, w: nat := 0, 0;
      Node(l, ptr, sz, base, f);
      NonePassed(l, sz, f, nunits);
      var prevp := freep;
      var p := ptr[prevp];
      while true
        invariant Valid() && freep != 0 && live == old(live) && f < |l| && l[f] == freep && t < |l| && 0 <= calls <= 1
        invariant prevp == l[if t == 0 then f else Pos(|l|, f, t - 1)] && p == l[Pos(|l|, f, t)]
        invariant Passed(l, sz, f, t, nunits)
        invariant calls == 1 ==> w < |l| && l[Pos(|l|, f, w)] in sz && sz[l[Pos(|l|, f, w)]] >= nunits
        invariant if calls == 0 then own == old(own) && top == old(top)
                  else core.Some? && forall u: nat :: u in own <==> u in old(own) || core.value <= u < top
        decreases 1 - calls, |l| - t
      {
        ghost var i := Pos(|l|, f, t);
        Node(l, ptr, sz, base, i);
        if sz[p] >= nunits {
          Before(l, f, t);
          p := Take(prevp, p, nunits, i);
          return p + 1, calls;
        }
        PassedMore(l, sz, f, t, nunits);
        if p == freep {
          SamePlace(l, ptr, sz, base, f, i);
          NoneLarge(l, sz, base, f, t, nunits);
          AllPassed(l, sz, f, t, w, nunits, calls);
          p, f, w := Refill(nunits, core, f);
          calls := 1;
          if p == 0 {
            return 0, calls;
          }
          t := 0;
        } else {
          NotLast(l, f, t);
          t := t + 1;
        }
        prevp := p;
        p := ptr[p];
      }
    }
  }
}
