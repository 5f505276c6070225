/** User memory byte by byte: what copyin, copyout and copyinstr have to agree with. */
module UserCopy {
  import opened Common
  import opened PageTable
  import opened Pages

  const MAXVA: nat := VPNS * PGSIZE

  /** User code may access virtual address va. */
  ghost predicate Reach(m: Mem, root: nat, va: nat) {
    Shape(m.tab) && va < MAXVA && var e := Pte(m.tab, root, va / PGSIZE); V(e) && U(e)
  }

  /** The byte at va. */
  ghost function At(m: Mem, root: nat, va: nat): byte
    requires Sized(m)
  {
    var p := Ppn(Pte(m.tab, root, va / PGSIZE));
    if p < PHYSPAGES then m.data[p][va % PGSIZE] else 0
  }

  /** What user code can reach is a page of the address space's own. */
  lemma ReachOwn(m: Mem, root: nat, va: nat)
    requires Sized(m) && Tree(m.tab, m.role) && IsRoot(m.role, root) && Reach(m, root, va)
    ensures OwnPage(m, root, va / PGSIZE) && Ppn(Pte(m.tab, root, va / PGSIZE)) != 0
  {
    var v := va / PGSIZE;
    AtRole(m.tab, m.role, root, v, 0);
    assert EntryOk(m.tab, m.role, TableAt(m.tab, root, v, 0), v % 512);
  }

  /** The bytes of s are what user memory holds from va on. */
  ghost predicate Holds(m: Mem, root: nat, va: nat, s: seq<byte>)
    requires Sized(m)
  {
    forall a: nat :: va <= a < va + |s| ==> Reach(m, root, a) && s[a - va] == At(m, root, a)
  }

  // ----- writing -----

  /** Exactly the bytes from dst on have been replaced, as far as this address space can see, and no page of
      anyone else has changed. */
  ghost predicate Wrote(m: Mem, m': Mem, root: nat, dst: nat, bytes: seq<byte>) {
    && Sized(m) && Sized(m') && m'.tab == m.tab && m'.role == m.role && m'.free == m.free
    && (forall va: nat :: Reach(m, root, va) ==> At(m', root, va) == if dst <= va < dst + |bytes| then bytes[va - dst] else At(m, root, va))
    && (forall p: nat :: p < PHYSPAGES && !(m.role[p].Data? && m.role[p].root == root) ==> m'.data[p] == m.data[p])
  }

  lemma WroteNothing(m: Mem, root: nat, dst: nat)
    requires Sized(m)
    ensures Wrote(m, m, root, dst, [])
  {
  }

  lemma WroteMore(a: Mem, b: Mem, c: Mem, root: nat, dst: nat, x: seq<byte>, y: seq<byte>)
    requires Wrote(a, b, root, dst, x) && Wrote(b, c, root, dst + |x|, y)
    ensures Wrote(a, c, root, dst, x + y)
  {
  }

  function Patch(page: seq<byte>, off: nat, bytes: seq<byte>): (r: seq<byte>)
    requires off + |bytes| <= |page|
    ensures |r| == |page|
    ensures forall k :: 0 <= k < |page| ==> r[k] == if off <= k < off + |bytes| then bytes[k - off] else page[k]
  {
    page[..off] + bytes + page[off + |bytes|..]
  }

  /** A write within one page. Different virtual pages that user code can reach are different pages. */
  lemma WrotePage(m: Mem, m': Mem, root: nat, dst: nat, bytes: seq<byte>, c: nat)
    requires Sized(m) && Tree(m.tab, m.role) && IsRoot(m.role, root) && Reach(m, root, dst)
    requires dst % PGSIZE + |bytes| <= PGSIZE && c == Ppn(Pte(m.tab, root, dst / PGSIZE)) && c < PHYSPAGES
    requires m' == m.(data := m.data[c := Patch(m.data[c], dst % PGSIZE, bytes)])
    ensures Wrote(m, m', root, dst, bytes)
  {
    hide Pte, TreeBut;
    ReachOwn(m, root, dst);
    forall va: nat | Reach(m, root, va)
      ensures At(m', root, va) == if dst <= va < dst + |bytes| then bytes[va - dst] else At(m, root, va)
    {
      ReachOwn(m, root, va);
      SplitAddress(va);
      SplitAddress(dst);
    }
  }

  lemma SplitAddress(va: nat)
    ensures va == va / PGSIZE * PGSIZE + va % PGSIZE && va % PGSIZE < PGSIZE
  {
  }

  /** Whether a page can be reached does not depend on the place in the page. */
  lemma ReachPage(m: Mem, root: nat, va: nat, a: nat)
    requires va / PGSIZE == a / PGSIZE
    ensures Reach(m, root, va) <==> Reach(m, root, a)
  {
  }

  lemma ReachRest(m: Mem, root: nat, va: nat, a: nat)
    requires Reach(m, root, va) && va <= a < va / PGSIZE * PGSIZE + PGSIZE
    ensures Reach(m, root, a)
  {
    ReachPage(m, root, va, a);
  }

  /** The bytes of a reachable page, from va to its end. */
  lemma PageHolds(m: Mem, root: nat, va: nat, n: nat)
    requires Sized(m) && Reach(m, root, va) && va % PGSIZE + n <= PGSIZE && Ppn(Pte(m.tab, root, va / PGSIZE)) < PHYSPAGES
    ensures Holds(m, root, va, m.data[Ppn(Pte(m.tab, root, va / PGSIZE))][va % PGSIZE..va % PGSIZE + n])
  {
    hide Pte;
    var s := m.data[Ppn(Pte(m.tab, root, va / PGSIZE))][va % PGSIZE..va % PGSIZE + n];
    forall a: nat | va <= a < va + |s| ensures Reach(m, root, a) && s[a - va] == At(m, root, a) {
      SamePage(va, a);
      ReachPage(m, root, va, a);
    }
  }

  lemma SamePage(va: nat, a: nat)
    requires va <= a < va - va % PGSIZE + PGSIZE
    ensures a / PGSIZE == va / PGSIZE && a % PGSIZE == va % PGSIZE + (a - va)
  {
  }

  lemma HoldsMore(m: Mem, root: nat, va: nat, x: seq<byte>, y: seq<byte>)
    requires Sized(m) && Holds(m, root, va, x) && Holds(m, root, va + |x|, y)
    ensures Holds(m, root, va, x + y)
  {
  }

  // ----- strings -----

  /** Reading a string a byte at a time: the bytes up to and including the first NUL, if it is found within
      max bytes and before an address that cannot be read. */
  ghost function Str(m: Mem, root: nat, va: nat, max: nat): Option<seq<byte>>
    requires Sized(m)
    decreases max
  {
    if max == 0 || !Reach(m, root, va) then None
    else
      var b := At(m, root, va);
      if b == 0 then Some([0]) else After([b], Str(m, root, va + 1, max - 1))
  }

  function After(s: seq<byte>, o: Option<seq<byte>>): Option<seq<byte>> {
    if o.Some? then Some(s + o.value) else None
  }

  lemma AfterTwice(s: seq<byte>, t: seq<byte>, o: Option<seq<byte>>)
    ensures After(s, After(t, o)) == After(s + t, o)
  {
    if o.Some? {
      assert s + (t + o.value) == s + t + o.value;
    }
  }

  /** There is a NUL within max bytes, and everything up to it can be read. */
  ghost predicate HasNul(m: Mem, root: nat, va: nat, max: nat)
    requires Sized(m)
  {
    exists end: nat :: va <= end < va + max && At(m, root, end) == 0 && ReachTo(m, root, va, end)
  }

  ghost predicate ReachTo(m: Mem, root: nat, va: nat, end: nat) {
    forall a: nat :: va <= a <= end ==> Reach(m, root, a)
  }

  /** A string is found exactly when there is such a NUL. It is what user memory holds there, and has one NUL,
      at its end. */
  lemma {:induction false} StrFound(m: Mem, root: nat, va: nat, max: nat)
    requires Sized(m)
    ensures Str(m, root, va, max).Some? <==> HasNul(m, root, va, max)
    ensures var o := Str(m, root, va, max);
            o.Some? ==>
              && 0 < |o.value| <= max && Holds(m, root, va, o.value)
              && forall k: nat :: k < |o.value| ==> (o.value[k] == 0 <==> k == |o.value| - 1)
    decreases max
  {
    hide Pte, At, Reach;
    if max > 0 && Reach(m, root, va) {
      if At(m, root, va) == 0 {
        assert ReachTo(m, root, va, va);
      } else {
        StrFound(m, root, va + 1, max - 1);
        if HasNul(m, root, va + 1, max - 1) {
          var end: nat :| va + 1 <= end < va + max && At(m, root, end) == 0 && ReachTo(m, root, va + 1, end);
          assert ReachTo(m, root, va, end);
        }
        if HasNul(m, root, va, max) {
          var end: nat :| va <= end < va + max && At(m, root, end) == 0 && ReachTo(m, root, va, end);
          assert ReachTo(m, root, va + 1, end);
        }
      }
    } else {
      forall end: nat | va <= end < va + max ensures !ReachTo(m, root, va, end) {
        assert !Reach(m, root, va);
      }
    }
  }

  lemma AfterNothing(o: Option<seq<byte>>)
    ensures After([], o) == o
  {
    if o.Some? {
      assert [] + o.value == o.value;
    }
  }

  lemma HoldsNothing(m: Mem, root: nat, va: nat)
    requires Sized(m)
    ensures Holds(m, root, va, [])
  {
  }

  lemma WroteSame(m: Mem, m': Mem, root: nat, dst: nat, bytes: seq<byte>, va: nat)
    requires Wrote(m, m', root, dst, bytes)
    ensures Reach(m', root, va) <==> Reach(m, root, va)
  {
  }
}
