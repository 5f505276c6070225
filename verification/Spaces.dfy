/** Address spaces of processes. */
module Spaces {
  import opened Common
  import opened PageTable
  import opened Pages

  /** The address space maps pages of its own at its first n virtual pages, what hi says above, and
      nothing else. */
  ghost predicate Space(m: Mem, root: nat, n: nat, hi: map<nat, nat>) {
    && Sized(m) && IsRoot(m.role, root)
    && (forall v: nat :: v < VSPACE && v < n ==> OwnPage(m, root, v))
    && (forall v: nat :: v in hi ==> n <= v < VPNS && Pte(m.tab, root, v) == hi[v] && SharedPage(m, root, v))
    && (forall v: nat :: v < VSPACE && n <= v && v !in hi ==> Pte(m.tab, root, v) == 0)
    && n <= VSPACE
  }

  // ----- an address space is no larger than physical memory -----

  lemma FitsMemory(m: Mem, root: nat, n: nat, hi: map<nat, nat>)
    requires Space(m, root, n, hi)
    ensures n <= PHYSPAGES
  {
    hide Pte;
    var s: seq<nat> := seq(n, v requires 0 <= v < n => Ppn(Pte(m.tab, root, v)));
    forall v | 0 <= v < n ensures s[v] < PHYSPAGES && m.role[s[v]].Data? && m.role[s[v]].vpn == v {
      assert OwnPage(m, root, v);
    }
    Pigeonhole(s, PHYSPAGES);
  }

  // ----- growing -----

  /** Only tables have been gained: nothing is mapped differently, no other page has changed hands. */
  ghost predicate OnlyTables(m: Mem, m': Mem, root: nat) {
    && Foreign(m, m', root, 0, 0)
    && (forall p: nat :: p < PHYSPAGES && !m.role[p].Free? ==> m'.role[p] == m.role[p] && m'.data[p] == m.data[p])
    && (forall p: nat :: p < PHYSPAGES && m.role[p].Free? ==> m'.role[p].Free? || m'.role[p].Table?)
    && (forall v: nat :: v < VSPACE ==> Pte(m'.tab, root, v) == Pte(m.tab, root, v))
  }

  /** Virtual pages from n0 up to n have been given pages of their own, taken from the free list. */
  ghost predicate Extended(m: Mem, m': Mem, root: nat, n0: nat, n: nat) {
    && n0 <= n <= VSPACE && Foreign(m, m', root, 0, 0)
    && (forall p: nat :: p < PHYSPAGES && !m.role[p].Free? ==> m'.role[p] == m.role[p] && m'.data[p] == m.data[p])
    && (forall p: nat :: p < PHYSPAGES && m.role[p].Free? ==> m'.role[p].Free? || m'.role[p].Table? || In(m'.role[p], root, n0, n - n0))
    && (forall v: nat :: n0 <= v < n ==> OwnPage(m', root, v))
    && (forall v: nat :: v < VSPACE && !(n0 <= v < n) ==> Pte(m'.tab, root, v) == Pte(m.tab, root, v))
  }

  /** A free page with the given contents has been put at virtual page v; tables may have been gained. */
  ghost predicate Filled(m: Mem, m': Mem, root: nat, v: nat, page: nat, perm: nat) {
    && Foreign(m, m', root, 0, 0) && perm < 1024 && page < PHYSPAGES && m.role[page].Free?
    && (forall p: nat :: p < PHYSPAGES && !m.role[p].Free? ==> m'.role[p] == m.role[p] && m'.data[p] == m.data[p])
    && (forall p: nat :: p < PHYSPAGES && m.role[p].Free? && p != page ==> m'.role[p].Free? || m'.role[p].Table?)
    && m'.role[page].Data? && m'.role[page] == Data(root, v, m'.role[page].parent)
    && (forall w: nat :: w < VSPACE ==> Pte(m'.tab, root, w) == if w == v then Leaf(page, perm) else Pte(m.tab, root, w))
  }

  /** kalloc, then mappages of that page. */
  lemma TookPage(a: Mem, b: Mem, c: Mem, root: nat, v: nat, page: nat, perm: nat)
    requires Sized(a) && Sized(b) && page < PHYSPAGES && Tree(a.tab, a.role) && IsRoot(a.role, root)
    requires a.role[page].Free? && b.role == a.role[page := Held] && b.tab == a.tab[page := b.tab[page]]
    requires b.data == a.data[page := b.data[page]] && Added(b, c, root, v, 1, page, perm, true)
    ensures Filled(a, c, root, v, page, perm) && c.data[page] == b.data[page]
  {
    hide Leaf, EntryOk, TableOk, DataOk, Pte;
    forall w: nat | w < VSPACE ensures Pte(b.tab, root, w) == Pte(a.tab, root, w) {
      PteFrame(a.tab, a.role, b.tab, root, w);
    }
    hide TreeBut;
  }

  lemma FilledOwn(m: Mem, m': Mem, root: nat, v: nat, page: nat, perm: nat)
    requires Filled(m, m', root, v, page, perm) && v < VSPACE
    ensures OwnPage(m', root, v) && Pte(m'.tab, root, v) == Leaf(page, perm) && Ppn(Leaf(page, perm)) == page
  {
    hide Pte, Leaf;
    LeafBits(page, perm);
  }

  lemma ExtendedMore(m0: Mem, m: Mem, m': Mem, root: nat, n0: nat, n: nat, page: nat, perm: nat)
    requires Extended(m0, m, root, n0, n) && n < VSPACE && Filled(m, m', root, n, page, perm)
    ensures Extended(m0, m', root, n0, n + 1)
  {
    hide Pte, Leaf;
    FilledOwn(m, m', root, n, page, perm);
    forall v: nat | n0 <= v < n ensures OwnPage(m', root, v) {
      assert OwnPage(m, root, v);
    }
  }

  lemma FilledKept(m: Mem, m': Mem, root: nat, v: nat, page: nat, perm: nat)
    requires Filled(m, m', root, v, page, perm) && v < VSPACE
    ensures Kept(m, m', root, v)
  {
  }

  /** kalloc, then a mappages that fails, then kfree. */
  lemma GaveBack(a: Mem, b: Mem, c: Mem, d: Mem, root: nat, page: nat)
    requires Sized(a) && Sized(b) && Sized(d) && page < PHYSPAGES && Tree(a.tab, a.role) && IsRoot(a.role, root)
    requires a.role[page].Free? && b.role == a.role[page := Held] && b.tab == a.tab[page := b.tab[page]]
    requires b.data == a.data[page := b.data[page]] && Grew(b, c, root) && Tree(c.tab, c.role)
    requires d.role == c.role[page := d.role[page]] && d.role[page].Free? && d.tab == c.tab[page := d.tab[page]]
    requires d.data == c.data[page := d.data[page]]
    ensures OnlyTables(a, d, root)
  {
    hide EntryOk, TableOk, DataOk, Pte;
    forall w: nat | w < VSPACE ensures Pte(d.tab, root, w) == Pte(a.tab, root, w) {
      PteFrame(a.tab, a.role, b.tab, root, w);
      PteFrame(c.tab, c.role, d.tab, root, w);
    }
    hide TreeBut;
  }

  lemma ExtendedThenTables(m0: Mem, m: Mem, m': Mem, root: nat, n0: nat, n: nat)
    requires Extended(m0, m, root, n0, n) && OnlyTables(m, m', root)
    ensures Extended(m0, m', root, n0, n)
  {
    hide Pte;
    forall v: nat | n0 <= v < n ensures OwnPage(m', root, v) {
      assert OwnPage(m, root, v);
    }
  }

  lemma NotExtended(m: Mem, root: nat, n0: nat)
    requires Sized(m) && n0 <= VSPACE
    ensures Extended(m, m, root, n0, n0) && OnlyTables(m, m, root)
  {
  }

  /** Taking the new pages away again leaves only tables. */
  lemma Undone(m0: Mem, m: Mem, m': Mem, root: nat, n0: nat, n: nat)
    requires Extended(m0, m, root, n0, n) && Removed(m, m', root, n0, n - n0, true)
    requires forall v: nat :: n0 <= v < n ==> Pte(m0.tab, root, v) == 0
    requires forall p: nat :: p < PHYSPAGES ==> !In(m0.role[p], root, n0, n - n0)
    ensures OnlyTables(m0, m', root)
  {
  }

  lemma SpaceRest(m: Mem, root: nat, n0: nat, n: nat, hi: map<nat, nat>)
    requires Space(m, root, n0, hi) && Tree(m.tab, m.role) && n0 <= n && forall v :: v in hi ==> v >= n
    ensures forall v: nat :: n0 <= v < n && v < VSPACE ==> Pte(m.tab, root, v) == 0
    ensures forall p: nat :: p < PHYSPAGES ==> !In(m.role[p], root, n0, n - n0)
  {
    hide EntryOk, TableOk, DataOk, Pte;
    forall p: nat | p < PHYSPAGES && m.role[p].Data? && m.role[p].root == root ensures m.role[p].vpn < n0 || m.role[p].vpn >= n {
      OwnEntry(m.tab, m.role, p);
    }
  }

  lemma SpaceExtended(m: Mem, m': Mem, root: nat, n0: nat, n: nat, hi: map<nat, nat>)
    requires Space(m, root, n0, hi) && Extended(m, m', root, n0, n) && (forall v :: v in hi ==> v >= n)
    requires forall v: nat :: v in hi ==> Ppn(hi[v]) < PHYSPAGES && Solid(m.role[Ppn(hi[v])])
    ensures Space(m', root, n, hi)
  {
    hide Pte;
    forall v: nat | v < n ensures OwnPage(m', root, v) {
      if v < n0 {
        assert OwnPage(m, root, v);
      }
    }
    forall v: nat | v in hi ensures SharedPage(m', root, v) {
      assert SharedPage(m, root, v);
    }
  }

  /** Pages that operations on address spaces leave where they are. */
  predicate Solid(rl: Role) { rl.Kernel? || rl.Held? || rl.Trap? }

  lemma SpaceTables(m: Mem, m': Mem, root: nat, n: nat, hi: map<nat, nat>)
    requires Space(m, root, n, hi) && OnlyTables(m, m', root)
    requires forall v: nat :: v in hi ==> Ppn(hi[v]) < PHYSPAGES && Solid(m.role[Ppn(hi[v])])
    ensures Space(m', root, n, hi)
  {
    hide Pte;
    forall v: nat | v < n ensures OwnPage(m', root, v) {
      assert OwnPage(m, root, v);
    }
    forall v: nat | v in hi ensures SharedPage(m', root, v) {
      assert SharedPage(m, root, v);
    }
  }

  lemma SpaceShrunk(m: Mem, m': Mem, root: nat, n0: nat, n: nat, hi: map<nat, nat>)
    requires Space(m, root, n0, hi) && n <= n0 && Removed(m, m', root, n, n0 - n, true)
    ensures Space(m', root, n, hi)
  {
    hide Pte;
    forall v: nat | v < n ensures OwnPage(m', root, v) {
      assert OwnPage(m, root, v);
    }
    forall v: nat | v in hi ensures SharedPage(m', root, v) {
      assert SharedPage(m, root, v);
    }
  }

  /** The first n virtual pages are mapped as before, with the same contents. */
  ghost predicate Kept(m: Mem, m': Mem, root: nat, n: nat) {
    Sized(m) && Sized(m') && forall v: nat :: v < n ==>
      && Pte(m'.tab, root, v) == Pte(m.tab, root, v)
      && (OwnPage(m, root, v) ==> OwnPage(m', root, v) && m'.data[Ppn(Pte(m.tab, root, v))] == m.data[Ppn(Pte(m.tab, root, v))])
  }

  /** The mappings above the user's memory lie beyond anything that can be backed by memory, and their
      pages stay put. */
  ghost predicate HiOk(m: Mem, hi: map<nat, nat>) {
    Sized(m) && forall v: nat :: v in hi ==> v > PHYSPAGES && Ppn(hi[v]) < PHYSPAGES && Solid(m.role[Ppn(hi[v])])
  }

  /** The number of pages that sz bytes take: PGROUNDUP(sz) / PGSIZE. */
  function PagesOf(sz: nat): nat {
    (sz + PGSIZE - 1) / PGSIZE
  }

  /** Virtual pages from n0 up to n are mapped with the given permissions and read as zeroes. */
  ghost predicate Zeroed(m: Mem, root: nat, n0: nat, n: nat, perm: nat) {
    && Sized(m) && perm < 1024
    && forall v: nat :: n0 <= v < n ==>
         OwnPage(m, root, v) && var e := Pte(m.tab, root, v); e == Leaf(Ppn(e), perm) && m.data[Ppn(e)] == Fill(0)
  }

  lemma ZeroedMore(m: Mem, m': Mem, root: nat, n0: nat, n: nat, page: nat, perm: nat)
    requires Zeroed(m, root, n0, n, perm) && Filled(m, m', root, n, page, perm) && n < VSPACE && m'.data[page] == Fill(0)
    ensures Zeroed(m', root, n0, n + 1, perm)
  {
    FilledOwn(m, m', root, n, page, perm);
    FilledKept(m, m', root, n, page, perm);
    hide Pte, Leaf, Filled;
    forall v: nat | n0 <= v < n
      ensures OwnPage(m', root, v) && var e := Pte(m'.tab, root, v); e == Leaf(Ppn(e), perm) && m'.data[Ppn(e)] == Fill(0)
    {
      assert OwnPage(m, root, v);
    }
  }

  lemma HiKept(m: Mem, m': Mem, root: nat, n0: nat, n: nat, hi: map<nat, nat>)
    requires HiOk(m, hi) && Extended(m, m', root, n0, n)
    ensures HiOk(m', hi)
  {
  }

  lemma AddedZero(m: Mem, m': Mem, root: nat, first: nat, ppn: nat, perm: nat, own: bool)
    requires Added(m, m', root, first, 0, ppn, perm, own)
    ensures Grew(m, m', root)
  {
  }

  // ----- giving an address space up -----

  /** Exactly the pages of the address space have become free. */
  ghost predicate Erased(m: Mem, m': Mem, root: nat) {
    && Sized(m) && Sized(m')
    && forall p: nat :: p < PHYSPAGES ==>
         if Mine(m.role[p], root) || m.role[p].Free? then m'.role[p].Free?
         else m'.role[p] == m.role[p] && m'.tab[p] == m.tab[p] && m'.data[p] == m.data[p]
  }

  lemma NothingMapped(m: Mem, root: nat)
    requires Space(m, root, 0, map[]) && Tree(m.tab, m.role)
    ensures Bare(m.tab, m.role, root)
    ensures forall p: nat :: p < PHYSPAGES && m.role[p].Data? ==> m.role[p].root != root
  {
    hide EntryOk, DataOk;
    forall q: nat, i: nat | q < PHYSPAGES && i < NPTE && m.role[q].Table? && m.role[q].root == root && m.role[q].level == 0
      ensures m.tab[q][i] == 0
    {
      var v := m.role[q].pre * 512 + i;
      assert TableOk(m.tab, m.role, q);
      RoleAt(m.tab, m.role, q, v);
      assert Pte(m.tab, root, v) == 0;
    }
    forall p: nat | p < PHYSPAGES && m.role[p].Data? ensures m.role[p].root != root {
      OwnEntry(m.tab, m.role, p);
    }
  }

  lemma ErasedAll(m: Mem, m1: Mem, m2: Mem, root: nat)
    requires Foreign(m, m1, root, 0, 0) && Tree(m1.tab, m1.role) && IsRoot(m1.role, root)
    requires forall p: nat :: p < PHYSPAGES && m1.role[p].Data? ==> m1.role[p].root != root
    requires Pruned(m1, m2, Table(root, 2, 0, root))
    ensures Erased(m, m2, root)
  {
  }

  lemma ForeignTwice(a: Mem, b: Mem, c: Mem, root: nat)
    requires Foreign(a, b, root, 0, 0) && Foreign(b, c, root, 0, 0)
    ensures Foreign(a, c, root, 0, 0)
  {
  }

  lemma ForeignErased(a: Mem, b: Mem, c: Mem, root: nat)
    requires Foreign(a, b, root, 0, 0) && Erased(b, c, root)
    ensures Erased(a, c, root)
  {
  }

  /** Removing a mapping that is not the address space's own memory. */
  lemma SpaceUnhooked(m: Mem, m': Mem, root: nat, n: nat, hi: map<nat, nat>, v: nat)
    requires Space(m, root, n, hi) && v in hi && Removed(m, m', root, v, 1, false)
    ensures Space(m', root, n, hi - {v})
  {
    hide Pte;
    forall w: nat | w < n ensures OwnPage(m', root, w) {
      assert OwnPage(m, root, w);
    }
    forall w: nat | w in hi && w != v ensures SharedPage(m', root, w) {
      assert SharedPage(m, root, w);
    }
  }

  /** Adding such a mapping. */
  lemma SpaceHooked(m: Mem, m': Mem, root: nat, n: nat, hi: map<nat, nat>, v: nat, ppn: nat, perm: nat)
    requires Space(m, root, n, hi) && HiOk(m, hi) && v !in hi && n <= v < VPNS && Added(m, m', root, v, 1, ppn, perm, false)
    requires ppn < PHYSPAGES && Solid(m.role[ppn])
    ensures Space(m', root, n, hi[v := Leaf(ppn, perm)])
  {
    hide Pte, Leaf;
    LeafBits(ppn, perm);
    forall w: nat | w < n ensures OwnPage(m', root, w) {
      assert OwnPage(m, root, w);
    }
    forall w: nat | w in hi[v := Leaf(ppn, perm)] ensures SharedPage(m', root, w) {
      if w != v {
        assert SharedPage(m, root, w);
      }
    }
  }

  lemma NoneZeroed(m: Mem, root: nat, n: nat, perm: nat)
    requires Sized(m) && perm < 1024
    ensures Zeroed(m, root, n, n, perm)
  {
  }

  lemma SpaceTop(m: Mem, root: nat, n: nat, hi: map<nat, nat>)
    requires Space(m, root, n, hi) && HiOk(m, hi) && n <= PHYSPAGES
    ensures IsRoot(m.role, root) && Pte(m.tab, root, n) == 0
  {
  }

  lemma SpaceAgain(m: Mem, m': Mem, root: nat, n0: nat, n: nat, hi: map<nat, nat>)
    requires Space(m, root, n0, hi) && HiOk(m, hi) && Extended(m, m', root, n0, n) && n <= PHYSPAGES + 1
    ensures Space(m', root, n, hi) && HiOk(m', hi)
  {
    SpaceExtended(m, m', root, n0, n, hi);
    HiKept(m, m', root, n0, n, hi);
  }

  lemma SpaceGap(m: Mem, root: nat, n0: nat, n: nat, hi: map<nat, nat>)
    requires Space(m, root, n0, hi) && HiOk(m, hi) && Tree(m.tab, m.role) && n0 <= n <= PHYSPAGES + 1
    ensures forall v: nat :: n0 <= v < n ==> Pte(m.tab, root, v) == 0
    ensures forall p: nat :: p < PHYSPAGES ==> !In(m.role[p], root, n0, n - n0)
  {
    SpaceRest(m, root, n0, n, hi);
  }

  lemma SpaceBack(m: Mem, m': Mem, root: nat, n: nat, hi: map<nat, nat>)
    requires Space(m, root, n, hi) && HiOk(m, hi) && OnlyTables(m, m', root)
    ensures Space(m', root, n, hi) && HiOk(m', hi)
  {
    SpaceTables(m, m', root, n, hi);
    hide Pte;
  }

  // ----- the two pages at the top of every address space -----

  const TRAMPOLINE: nat := VPNS - 1
  const TRAPFRAME: nat := VPNS - 2

  ghost function Hi(tramp: nat, tf: nat): map<nat, nat> {
    map[TRAMPOLINE := Leaf(tramp, PTE_R + PTE_X), TRAPFRAME := Leaf(tf, PTE_R + PTE_W)]
  }

  /** Every page is where it was, up to the order of the free list. */
  ghost predicate Restored(m: Mem, m': Mem) {
    && Sized(m) && Sized(m')
    && forall p: nat :: p < PHYSPAGES ==>
         if m.role[p].Free? then m'.role[p].Free?
         else m'.role[p] == m.role[p] && m'.tab[p] == m.tab[p] && m'.data[p] == m.data[p]
  }

  lemma NoneOf(m: Mem, root: nat)
    requires Sized(m) && Tree(m.tab, m.role) && root < PHYSPAGES && Loose(m.role[root])
    ensures forall p: nat :: p < PHYSPAGES ==> !Mine(m.role[p], root)
  {
  }

  lemma ErasedNew(m: Mem, m': Mem, root: nat)
    requires Erased(m, m', root) && forall p: nat :: p < PHYSPAGES ==> !Mine(m.role[p], root)
    ensures Restored(m, m')
  {
  }

  lemma SpaceRoot(m: Mem, root: nat, n: nat, hi: map<nat, nat>)
    requires Space(m, root, n, hi)
    ensures IsRoot(m.role, root)
  {
  }

  lemma SpaceVacant(m: Mem, root: nat, hi: map<nat, nat>, v: nat)
    requires Space(m, root, 0, hi) && v < VSPACE && v !in hi
    ensures Vacant(m.tab, root, v, 1)
  {
  }

  lemma SpaceShared(m: Mem, root: nat, n: nat, hi: map<nat, nat>, v: nat)
    requires Space(m, root, n, hi) && v in hi
    ensures SharedPage(m, root, v)
  {
  }

  lemma SpaceGrew(m: Mem, m': Mem, root: nat, n: nat, hi: map<nat, nat>)
    requires Space(m, root, n, hi) && HiOk(m, hi) && Grew(m, m', root)
    ensures Space(m', root, n, hi)
  {
    hide Pte;
    SpaceTables(m, m', root, n, hi);
  }

  lemma AddedForeign(m: Mem, m': Mem, root: nat, first: nat, n: nat, ppn: nat, perm: nat)
    requires Added(m, m', root, first, n, ppn, perm, false)
    ensures Foreign(m, m', root, 0, 0)
  {
  }

  lemma ForeignSolid(m: Mem, m': Mem, root: nat, p: nat)
    requires Foreign(m, m', root, 0, 0) && p < PHYSPAGES && Solid(m.role[p])
    ensures m'.role[p] == m.role[p]
  {
  }

  lemma HiHooked(m: Mem, m': Mem, root: nat, hi: map<nat, nat>, v: nat, ppn: nat, perm: nat)
    requires HiOk(m, hi) && Foreign(m, m', root, 0, 0) && v > PHYSPAGES && ppn < PHYSPAGES && Solid(m.role[ppn]) && perm < 1024
    ensures HiOk(m', hi) && HiOk(m', hi[v := Leaf(ppn, perm)])
  {
    hide Leaf;
    LeafBits(ppn, perm);
  }

  lemma NoHi(m: Mem)
    requires Sized(m)
    ensures HiOk(m, map[])
  {
  }

  lemma ErasedNothing(m: Mem)
    requires Sized(m)
    ensures Restored(m, m)
  {
  }

  lemma RemovedForeign(m: Mem, m': Mem, root: nat, first: nat, n: nat, doFree: bool)
    requires Removed(m, m', root, first, n, doFree)
    ensures Foreign(m, m', root, 0, 0)
  {
  }

  lemma TrampPage(tab: Tab, role: Roles, free: seq<nat>, head: nat, lo: nat, tramp: nat)
    requires Shape(tab) && |role| == PHYSPAGES && FreeOk(tab, role, free, head, lo) && tramp < lo
    ensures tramp < PHYSPAGES ==> role[tramp].Kernel?
  {
  }

  // ----- copying an address space -----

  /** An operation on one address space leaves every other one alone: what it maps, what is there, and
      whose the pages are. */
  lemma Untouched(m: Mem, m': Mem, root: nat, x: nat, n: nat, other: nat, v: nat)
    requires Foreign(m, m', root, x, n) && (forall p: nat :: x <= p < x + n && p < PHYSPAGES ==> Loose(m.role[p])) && Tree(m.tab, m.role) && other != root && IsRoot(m.role, other) && v < VSPACE
    ensures IsRoot(m'.role, other) && Pte(m'.tab, other, v) == Pte(m.tab, other, v)
    ensures OwnPage(m, other, v) ==> OwnPage(m', other, v) && m'.data[Ppn(Pte(m.tab, other, v))] == m.data[Ppn(Pte(m.tab, other, v))]
  {
    hide EntryOk, TableOk, DataOk, Pte;
    PteFrame(m.tab, m.role, m'.tab, other, v);
  }

  /** The first n virtual pages have the same flags and the same contents in both address spaces. */
  ghost predicate Copies(m: Mem, from: nat, to: nat, n: nat) {
    Sized(m) && forall v: nat :: v < n ==>
      && OwnPage(m, from, v) && OwnPage(m, to, v) && Flags(Pte(m.tab, to, v)) == Flags(Pte(m.tab, from, v))
      && m.data[Ppn(Pte(m.tab, to, v))] == m.data[Ppn(Pte(m.tab, from, v))]
  }

  lemma CopiesNone(m: Mem, from: nat, to: nat)
    requires Sized(m)
    ensures Copies(m, from, to, 0)
  {
  }

  lemma FlagsAgain(ppn: nat, e: nat)
    requires V(e)
    ensures Flags(e) < 1024 && Flags(Leaf(ppn, Flags(e))) == Flags(e) && Rwx(Flags(e)) == Rwx(e)
  {
    var f := Flags(e);
    FlagBits(Ppn(e), f);
    FlagBits(ppn, f);
    assert Ppn(e) * 1024 + f == e;
    assert Leaf(ppn, f) == ppn * 1024 + f;
    hide *;
  }

  lemma CopiesMore(m: Mem, m': Mem, from: nat, to: nat, n: nat, page: nat)
    requires Copies(m, from, to, n) && from != to && n < VSPACE && Tree(m.tab, m.role) && IsRoot(m.role, from)
    requires OwnPage(m, from, n) && Filled(m, m', to, n, page, Flags(Pte(m.tab, from, n)))
    requires m'.data[page] == m.data[Ppn(Pte(m.tab, from, n))]
    ensures Copies(m', from, to, n + 1)
  {
    var perm := Flags(Pte(m.tab, from, n));
    FilledOwn(m, m', to, n, page, perm);
    FilledKept(m, m', to, n, page, perm);
    FlagsAgain(page, Pte(m.tab, from, n));
    FilledForeign(m, m', to, n, page, perm);
    hide Pte, Leaf, Filled, TreeBut, OwnPage, Foreign, Flags, Ppn;
    forall v: nat | v < n + 1
      ensures OwnPage(m', from, v) && OwnPage(m', to, v) && Flags(Pte(m'.tab, to, v)) == Flags(Pte(m'.tab, from, v))
        && m'.data[Ppn(Pte(m'.tab, to, v))] == m'.data[Ppn(Pte(m'.tab, from, v))]
    {
      Untouched(m, m', to, 0, 0, from, v);
      if v < n {
        assert OwnPage(m, from, v) && OwnPage(m, to, v);
      }
    }
  }

  lemma FilledForeign(m: Mem, m': Mem, root: nat, v: nat, page: nat, perm: nat)
    requires Filled(m, m', root, v, page, perm)
    ensures Foreign(m, m', root, 0, 0)
  {
  }

  /** While the copy is being made, the page to copy next is still the original's. */
  lemma SourcePage(m0: Mem, m: Mem, from: nat, n: nat, hf: map<nat, nat>, to: nat, i: nat)
    requires Space(m0, from, n, hf) && Extended(m0, m, to, 0, i) && from != to && i < n && n <= VSPACE
    requires Tree(m0.tab, m0.role) && Tree(m.tab, m.role)
    ensures IsRoot(m.role, from) && OwnPage(m, from, i)
    ensures var e := Pte(m.tab, from, i); V(e) && Flags(e) < 1024 && Rwx(Flags(e)) && Ppn(e) < PHYSPAGES
  {
    Untouched(m0, m, to, 0, 0, from, i);
    var e := Pte(m.tab, from, i);
    FlagsAgain(0, e);
    AtRole(m.tab, m.role, from, i, 0);
    hide Pte, Extended, Space;
    assert EntryOk(m.tab, m.role, TableAt(m.tab, from, i, 0), i % 512);
  }

  lemma SpaceOwns(m: Mem, root: nat, n: nat, hi: map<nat, nat>)
    requires Space(m, root, n, hi)
    ensures IsRoot(m.role, root) && n <= VSPACE && forall v: nat :: v < n ==> OwnPage(m, root, v)
  {
  }

  lemma NoTrees(tab: Tab, role: Roles)
    requires Shape(tab) && |role| == PHYSPAGES && forall p: nat :: p < PHYSPAGES ==> role[p].Kernel? || role[p].Free?
    ensures Tree(tab, role)
  {
  }
}
