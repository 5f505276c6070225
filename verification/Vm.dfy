/** kalloc.c, vm.c and the page-table part of proc.c. */
module Vm {
  import opened Common
  import opened PageTable
  import opened Pages
  import opened Spaces
  import opened UserCopy
  import opened Processes

  class Machine {
    const lo: nat
    const tramp: nat
    var tab: Tab
    var data: seq<seq<byte>>
    var head: nat
    var procs: map<nat, Proc>
    ghost var role: Roles
    ghost var free: seq<nat>

    ghost function Now(): Mem
      reads this
    {
      Mem(tab, data, role, free)
    }

    ghost predicate Pool()
      reads this
    {
      Sized(Now()) && FreeOk(tab, role, free, head, lo)
    }

    ghost predicate Valid()
      reads this
    {
      Pool() && Tree(tab, role) && 0 < tramp < lo <= PHYSPAGES
    }

    /** kinit: memory with whatever contents, of which the pages from lo on are not part of the kernel. */
    constructor (lo: nat, tramp: nat, tab: Tab, data: seq<seq<byte>>)
      requires 0 < tramp < lo <= PHYSPAGES && Shape(tab)
      requires |data| == PHYSPAGES && forall p: nat :: p < PHYSPAGES ==> |data[p]| == PGSIZE
      ensures Steady() && procs == map[] && this.lo == lo && this.tramp == tramp
    {
      this.lo, this.tramp := lo, tramp;
      this.tab, this.data := tab, data;
      head := 0;
      procs := map[];
      role := seq(PHYSPAGES, p => if p < lo then Kernel else Held);
      free := [];
      new;
      FreeRange();
      NoTrees(this.tab, role);
    }

    /** freerange. */
    method FreeRange()
      requires Pool() && lo <= PHYSPAGES && free == [] && forall p: nat :: p < PHYSPAGES ==> role[p] == if p < lo then Kernel else Held
      modifies this`tab, this`data, this`head, this`role, this`free
      ensures Pool() && forall p: nat :: p < PHYSPAGES ==> if p < lo then role[p].Kernel? else role[p].Free?
    {
      hide FreeOk;
      var p := lo;
      while p < PHYSPAGES
        invariant lo <= p <= PHYSPAGES && Pool()
        invariant forall q: nat :: q < PHYSPAGES ==> if q < lo then role[q].Kernel? else if q < p then role[q].Free? else role[q].Held?
      {
        KFree(p);
        p := p + 1;
      }
    }

    /** kalloc: pop the free list; 0 when it is empty. */
    method KAlloc() returns (p: nat)
      requires Pool()
      modifies this`tab, this`data, this`head, this`role, this`free
      ensures Pool() && (p == 0 <==> old(free) == [])
      ensures p == 0 ==> Now() == old(Now()) && head == old(head)
      ensures p != 0 ==>
                && lo <= p < PHYSPAGES && old(role)[p].Free? && p == old(free)[|old(free)| - 1] && free == old(free)[..|old(free)| - 1]
                && role == old(role)[p := Held] && tab == old(tab)[p := FillWords(5)] && data == old(data)[p := Fill(5)]
    {
      hide FreeOk;
      if head == 0 {
        EmptyList(tab, role, free, head, lo);
        return 0;
      }
      EmptyList(tab, role, free, head, lo);
      Popped(tab, role, free, head, lo, FillWords(5));
      PoolFloor(tab, role, free, head, lo);
      p := head / PGSIZE;
      head := tab[p][0];
      tab := tab[p := FillWords(5)];
      data := data[p := Fill(5)];
      role := role[p := Held];
      free := free[..|free| - 1];
    }

    /** kfree: push a page that kernel code holds. */
    method KFree(p: nat)
      requires Pool() && p < PHYSPAGES && (role[p].Held? || role[p].Trap?)
      modifies this`tab, this`data, this`head, this`role, this`free
      ensures Pool()
      ensures free == old(free) + [p] && role == old(role)[p := Free(|old(free)|)]
      ensures tab == old(tab)[p := tab[p]] && data == old(data)[p := Fill(1)]
    {
      hide FreeOk;
      data := data[p := Fill(1)];
      var row: seq<nat> := FillWords(1)[0 := head];
      Pushed(tab, role, free, head, lo, row, p);
      tab := tab[p := row];
      head := p * PGSIZE;
      role := role[p := Free(|free|)];
      free := free + [p];
    }

    /** The table behind an empty entry: one kalloc, zeroed and linked in. */
    method NewTable(q: nat, i: nat) returns (c: nat)
      requires Valid() && q < PHYSPAGES && role[q].Table? && role[q].level > 0 && i < NPTE && tab[q][i] == 0
      requires IsRoot(role, role[q].root)
      modifies this`tab, this`data, this`head, this`role, this`free
      ensures Valid() && Grew(old(Now()), Now(), old(role[q]).root)
      ensures c == 0 ==> Now() == old(Now()) && free == []
      ensures c != 0 ==> c < PHYSPAGES && role[c] == Table(old(role[q]).root, old(role[q]).level - 1, old(role[q]).pre * 512 + i, q)
      ensures c != 0 ==> tab[q][i] == c * 1024 + PTE_V
      ensures c != 0 ==> |free| + 1 == |old(free)|
    {
      hide FreeOk, TreeBut, Grew;
      ghost var m, rl := Now(), role[q];
      c := KAlloc();
      if c == 0 {
        GrewRefl(m, rl.root);
        return;
      }
      ghost var tab1, role1 := tab, role;
      tab := tab[c := Zeros()];
      tab := WithPte(tab, q, i, c * 1024 + PTE_V);
      role := role[c := Table(rl.root, rl.level - 1, rl.pre * 512 + i, q)];
      TookTable(m, Now(), q, i, c);
      FreeFrame(tab1, role1, free, head, lo, tab, role);
    }

    /** walk: the page of the last-level table for virtual page v, or 0 if there is none and none
        can be made. */
    method Walk(root: nat, v: nat, alloc: bool) returns (q: nat)
      requires Valid() && IsRoot(role, root) && v < VPNS
      modifies this`tab, this`data, this`head, this`role, this`free
      ensures Valid() && Grew(old(Now()), Now(), root)
      ensures !alloc ==> Now() == old(Now()) && head == old(head)
      ensures q == TableAt(tab, root, v, 0) && (q == 0 && alloc ==> free == [])
      ensures q != 0 ==> q < PHYSPAGES && role[q].Table? && role[q] == Table(root, 0, v / 512, role[q].parent)
      ensures |free| + 2 >= |old(free)| && (q == 0 && alloc ==> |old(free)| < 2)
    {
      hide FreeOk, TreeBut, Grew, Px, Pre;
      ghost var m0 := Now();
      GrewRefl(m0, root);
      FirstPre(tab, role, root, v);
      q := root;
      var level := 2;
      while level > 0
        invariant 0 <= level <= 2
        invariant Valid() && Grew(m0, Now(), root) && (!alloc ==> Now() == m0 && head == old(head))
        invariant |free| + 2 - level >= |old(free)|
        invariant q == TableAt(tab, root, v, level) && IsRoot(role, root)
        invariant q != 0 && q < PHYSPAGES && role[q].Table? && role[q] == Table(root, level, Pre(level, v), role[q].parent)
      {
        ghost var m := Now();
        PreStep(level, v);
        var pte := tab[q][Px(level, v)];
        Child(tab, role, root, v, level);
        if V(pte) {
          q := Ppn(pte);
        } else {
          var c := 0;
          if alloc {
            c := NewTable(q, Px(level, v));
          }
          if c == 0 {
            return 0;
          }
          GrewTwice(m0, m, Now(), root);
          GrewRole(m, Now(), root);
          RoleAt(tab, role, c, v);
          q := c;
        }
        level := level - 1;
      }
      LastPre(v);
    }

    /** One round of mappages. */
    method MapPage(root: nat, v: nat, ppn: nat, perm: nat, ghost own: bool) returns (ok: bool)
      requires Valid() && IsRoot(role, root) && v < VPNS && Pte(tab, root, v) == 0
      requires perm < 1024 && Rwx(perm) && 0 < ppn < PHYSPAGES && if own then role[ppn].Held? else !U(perm)
      modifies this`tab, this`data, this`head, this`role, this`free
      ensures Valid() && IsRoot(role, root)
      ensures ok ==> Added(old(Now()), Now(), root, v, 1, ppn, perm, own)
      ensures !ok ==> Grew(old(Now()), Now(), root) && free == []
      ensures |free| + 2 >= |old(free)| && (!ok ==> |old(free)| < 2)
    {
      hide FreeOk, TreeBut, Grew, Added, Leaf, TableAt;
      ghost var m0 := Now();
      var q := Walk(root, v, true);
      GrewRole(m0, Now(), root);
      if q == 0 {
        return false;
      }
      ghost var m := Now();
      EntryFound(m0, m, root, v, q);
      tab := WithPte(tab, q, v % 512, Leaf(ppn, perm));
      if own {
        GrewHeld(m0, m, root, ppn);
        role := role[ppn := Data(root, v, q)];
      }
      AddedOne(m, Now(), q, v, ppn, perm, own);
      GrewThenAdded(m0, m, Now(), root, v, 1, ppn, perm, own);
      AddedRole(m, Now(), root, v, ppn, perm, own);
      FreeFrame(m.tab, m.role, free, head, lo, tab, role);
      ok := true;
    }

    /** mappages: n counts the pages mapped when it returns. */
    method MapPages(root: nat, va: nat, size: nat, pa: nat, perm: nat, ghost own: bool) returns (ok: bool, ghost n: nat)
      requires Valid() && IsRoot(role, root) && size > 0 && (va + size - 1) / PGSIZE < VPNS
      requires perm < 1024 && Rwx(perm) && 0 < pa / PGSIZE && pa / PGSIZE + Count(va, size) <= PHYSPAGES
      requires Vacant(tab, root, va / PGSIZE, Count(va, size))
      requires if own then AllHeld(role, pa / PGSIZE, Count(va, size)) else !U(perm)
      modifies this`tab, this`data, this`head, this`role, this`free
      ensures Valid() && IsRoot(role, root)
      ensures Added(old(Now()), Now(), root, va / PGSIZE, n, pa / PGSIZE, perm, own)
      ensures if ok then n == Count(va, size) else n < Count(va, size) && free == []
      ensures |free| + 2 * Count(va, size) >= |old(free)| && (!ok ==> |old(free)| < 2 * Count(va, size))
    {
      hide FreeOk, TreeBut, Grew, Added, Leaf, Pte;
      var a, last := va / PGSIZE, (va + size - 1) / PGSIZE;
      var ppn := pa / PGSIZE;
      ghost var m0 := Now();
      GrewRefl(m0, root);
      AddedNone(m0, m0, root, a, ppn, perm, own);
      n := 0;
      while true
        invariant 0 <= n < Count(va, size) && a == va / PGSIZE + n && ppn == pa / PGSIZE + n
        invariant |free| + 2 * n >= |old(free)|
        invariant Valid() && IsRoot(role, root) && Added(m0, Now(), root, va / PGSIZE, n, pa / PGSIZE, perm, own)
        decreases last - a
      {
        AddedRest(m0, Now(), root, va / PGSIZE, n, pa / PGSIZE, perm, own, Count(va, size));
        ghost var m := Now();
        ok := MapPage(root, a, ppn, perm, own);
        if !ok {
          AddedNothing(m0, m, Now(), root, va / PGSIZE, n, pa / PGSIZE, perm, own);
          return;
        }
        AddedMore(m0, m, Now(), root, va / PGSIZE, n, pa / PGSIZE, perm, own);
        n := n + 1;
        if a == last {
          return;
        }
        a := a + 1;
        ppn := ppn + 1;
      }
    }

    /** One round of uvmunmap. */
    method UnmapPage(root: nat, v: nat, doFree: bool)
      requires Valid() && IsRoot(role, root) && v < VPNS
      requires if doFree then OwnPage(Now(), root, v) else SharedPage(Now(), root, v)
      modifies this`tab, this`data, this`head, this`role, this`free
      ensures Valid() && Removed(old(Now()), Now(), root, v, 1, doFree)
    {
      hide FreeOk, TreeBut, Grew, Removed, TableAt;
      var q := Walk(root, v, false);
      ghost var m := Now();
      GrewRefl(m, root);
      MappedBy(tab, role, root, v);
      EntryFound(m, m, root, v, q);
      var c := Ppn(tab[q][v % 512]);
      if doFree {
        OwnParent(m, root, v);
        TakeData(tab, role, c);
        role := role[c := Held];
        FreeFrame(m.tab, m.role, free, head, lo, tab, role);
        ghost var tab1, role1 := tab, role;
        KFree(c);
        LooseFrame(tab1, role1, tab, role, q, v % 512);
      } else {
        Weaken(tab, role, q, v % 512);
      }
      ghost var tab2 := tab;
      ClearEntry(tab, role, q, v % 512);
      tab := WithPte(tab, q, v % 512, 0);
      FreeFrame(tab2, role, free, head, lo, tab, role);
      RemovedOne(m, Now(), root, q, v, c, doFree);
    }

    /** uvmunmap, from virtual page first. */
    method Unmap(root: nat, first: nat, npages: nat, doFree: bool)
      requires Valid() && IsRoot(role, root) && first + npages <= VPNS
      requires forall v: nat :: first <= v < first + npages ==> if doFree then OwnPage(Now(), root, v) else SharedPage(Now(), root, v)
      modifies this`tab, this`data, this`head, this`role, this`free
      ensures Valid() && IsRoot(role, root) && Removed(old(Now()), Now(), root, first, npages, doFree)
    {
      hide FreeOk, TreeBut, Removed, OwnPage, SharedPage;
      ghost var m0 := Now();
      RemovedNone(m0, root, first, doFree);
      var a := first;
      while a < first + npages
        invariant first <= a <= first + npages
        invariant Valid() && IsRoot(role, root) && Removed(m0, Now(), root, first, a - first, doFree)
      {
        ghost var m := Now();
        RemovedRest(m0, m, root, first, a - first, doFree);
        UnmapPage(root, a, doFree);
        RemovedRole(m, Now(), root, a, doFree);
        RemovedMore(m0, m, Now(), root, first, a - first, doFree);
        a := a + 1;
      }
    }

    /** freewalk: gives back the tables of a subtree that maps nothing. The entry that names its top
        is left for the caller to clear. */
    method FreeWalk(p: nat)
      requires Valid() && p < PHYSPAGES && role[p].Table? && role[p].level <= 2 && Bare(tab, role, role[p].root)
      modifies this`tab, this`data, this`head, this`role, this`free
      ensures Pool() && Pruned(old(Now()), Now(), old(role[p])) && Bare(tab, role, old(role[p]).root)
      ensures TreeBut(tab, role, old(role[p]).parent, old(role[p]).pre % 512)
      ensures old(role[p]).level == 2 ==> Tree(tab, role)
      decreases role[p].level
    {
      hide FreeOk, TreeBut, Pruned, PrunedKids, Under, UnderKids;
      ghost var m0, rl := Now(), role[p];
      PrunedNone(m0, p);
      var i := 0;
      while i < NPTE
        invariant 0 <= i <= NPTE
        invariant Valid() && role[p] == rl && Bare(tab, role, rl.root) && PrunedKids(m0, Now(), p, i)
      {
        ghost var m := Now();
        var pte := tab[p][i];
        Subtable(m, p, i);
        if V(pte) && !Rwx(pte) {
          var child := Ppn(pte);
          FreeWalk(child);
          PrunedTop(m, Now(), p, i, child);
          ghost var tab1 := tab;
          ClearEntry(tab, role, p, i);
          tab := WithPte(tab, p, i, 0);
          FreeFrame(tab1, role, free, head, lo, tab, role);
          KidPruned(m0, m, Mem(tab1, data, role, free), Now(), p, i);
        } else if V(pte) {
          assert false;
        } else {
          KidEmpty(m0, m, p, i);
        }
        i := i + 1;
      }
      ghost var m1 := Now();
      KidsGone(m0, m1, p);
      DropTable(tab, role, p);
      role := role[p := Held];
      FreeFrame(m1.tab, m1.role, free, head, lo, tab, role);
      ghost var tab2, role2 := tab, role;
      KFree(p);
      LooseFrame(tab2, role2, tab, role, rl.parent, rl.pre % 512);
      if rl.level == 2 {
        LooseFrame(tab2, role2, tab, role, PHYSPAGES, 0);
      }
      AllPruned(m0, m1, Now(), p);
    }

    /** uvmdealloc. */
    method UvmDealloc(root: nat, oldsz: nat, newsz: nat, ghost hi: map<nat, nat>) returns (sz: nat)
      requires Valid() && Space(Now(), root, PagesOf(oldsz), hi)
      modifies this`tab, this`data, this`head, this`role, this`free
      ensures Valid() && sz == if newsz < oldsz then newsz else oldsz
      ensures PagesOf(sz) <= PagesOf(oldsz)
      ensures Removed(old(Now()), Now(), root, PagesOf(sz), PagesOf(oldsz) - PagesOf(sz), true)
    {
      hide FreeOk, TreeBut, Removed, OwnPage, Pte;
      FitsMemory(Now(), root, PagesOf(oldsz), hi);
      RemovedNone(Now(), root, PagesOf(oldsz), true);
      if newsz >= oldsz {
        return oldsz;
      }
      if PagesOf(newsz) < PagesOf(oldsz) {
        Unmap(root, PagesOf(newsz), PagesOf(oldsz) - PagesOf(newsz), true);
      }
      return newsz;
    }

    /** One round of uvmalloc or uvmcopy: a new page with the given contents at virtual page a. */
    method AllocPage(root: nat, a: nat, perm: nat, contents: seq<byte>) returns (ok: bool, ghost page: nat)
      requires Valid() && IsRoot(role, root) && a < VPNS && Pte(tab, root, a) == 0 && perm < 1024 && Rwx(perm) && |contents| == PGSIZE
      modifies this`tab, this`data, this`head, this`role, this`free
      ensures Valid() && IsRoot(role, root)
      ensures ok ==> page < PHYSPAGES && Filled(old(Now()), Now(), root, a, page, perm) && data[page] == contents
      ensures !ok ==> OnlyTables(old(Now()), Now(), root)
      ensures |free| + 3 >= |old(free)| && (!ok ==> |old(free)| < 3)
    {
      hide FreeOk, TreeBut, Added, Grew, Filled, OnlyTables, Pte, Leaf;
      ghost var m0 := Now();
      NotExtended(m0, root, 0);
      var mem := KAlloc();
      page := mem;
      if mem == 0 {
        return false, 0;
      }
      LooseFrame(m0.tab, m0.role, tab, role, PHYSPAGES, 0);
      PteFrame(m0.tab, m0.role, tab, root, a);
      data := data[mem := contents];
      ghost var m1 := Now();
      ghost var n;
      ok, n := MapPages(root, a * PGSIZE, PGSIZE, mem * PGSIZE, perm, true);
      ghost var m2 := Now();
      if ok {
        TookPage(m0, m1, m2, root, a, mem, perm);
      } else {
        AddedZero(m1, m2, root, a, mem, perm, true);
        GrewHeld(m1, m2, root, mem);
        KFree(mem);
        LooseFrame(m2.tab, m2.role, tab, role, PHYSPAGES, 0);
        GaveBack(m0, m1, m2, Now(), root, mem);
      }
    }

    /** uvmalloc: 0 on failure, after which the address space has gained nothing but tables. */
    method UvmAlloc(root: nat, oldsz: nat, newsz: nat, xperm: nat, ghost hi: map<nat, nat>) returns (sz: nat)
      requires Valid() && Space(Now(), root, PagesOf(oldsz), hi) && HiOk(Now(), hi)
      requires xperm == 0 || xperm == PTE_W || xperm == PTE_X || xperm == PTE_W + PTE_X
      modifies this`tab, this`data, this`head, this`role, this`free
      ensures Valid()
      ensures newsz < oldsz ==> sz == oldsz && Now() == old(Now())
      ensures newsz >= oldsz ==> sz == newsz || sz == 0
      ensures newsz >= oldsz && sz == newsz ==>
                && Extended(old(Now()), Now(), root, PagesOf(oldsz), PagesOf(newsz)) && Space(Now(), root, PagesOf(newsz), hi)
                && Zeroed(Now(), root, PagesOf(oldsz), PagesOf(newsz), PTE_R + PTE_U + xperm)
      ensures newsz >= oldsz && sz != newsz ==> OnlyTables(old(Now()), Now(), root) && Space(Now(), root, PagesOf(oldsz), hi)
      ensures newsz >= oldsz ==> PagesOf(oldsz) <= PagesOf(newsz)
      ensures newsz >= oldsz && sz != newsz ==> |old(free)| < 3 * (PagesOf(newsz) - PagesOf(oldsz))
    {
      hide FreeOk, TreeBut, Extended, Filled, OnlyTables, Zeroed, Space, HiOk, Pte, Leaf, Removed;
      if newsz < oldsz {
        return oldsz;
      }
      ghost var m0 := Now();
      var n0 := PagesOf(oldsz);
      FitsMemory(m0, root, n0, hi);
      NotExtended(m0, root, n0);
      NoneZeroed(m0, root, n0, PTE_R + PTE_U + xperm);
      var a := n0;
      while a * PGSIZE < newsz
        invariant n0 <= a <= PHYSPAGES && a <= PagesOf(newsz) && |free| + 3 * (a - n0) >= |old(free)|
        invariant Valid() && Extended(m0, Now(), root, n0, a) && Space(Now(), root, a, hi) && HiOk(Now(), hi)
        invariant Zeroed(Now(), root, n0, a, PTE_R + PTE_U + xperm)
        decreases newsz - a * PGSIZE
      {
        ghost var m := Now();
        SpaceTop(m, root, a, hi);
        ghost var page;
        var ok;
        ok, page := AllocPage(root, a, PTE_R + PTE_U + xperm, Fill(0));
        if !ok {
          ghost var m1 := Now();
          ExtendedThenTables(m0, m, m1, root, n0, a);
          SpaceAgain(m0, m1, root, n0, a, hi);
          var _ := UvmDealloc(root, a * PGSIZE, n0 * PGSIZE, hi);
          SpaceGap(m0, root, n0, a, hi);
          Undone(m0, m1, Now(), root, n0, a);
          SpaceBack(m0, Now(), root, n0, hi);
          return 0;
        }
        ZeroedMore(m, Now(), root, n0, a, page, PTE_R + PTE_U + xperm);
        ExtendedMore(m0, m, Now(), root, n0, a, page, PTE_R + PTE_U + xperm);
        SpaceAgain(m0, Now(), root, n0, a + 1, hi);
        FitsMemory(Now(), root, a + 1, hi);
        a := a + 1;
      }
      return newsz;
    }

    /** uvmcreate. */
    method UvmCreate() returns (root: nat)
      requires Valid()
      modifies this`tab, this`data, this`head, this`role, this`free
      ensures Valid()
      ensures if root == 0 then Now() == old(Now()) && free == [] else |free| + 1 == |old(free)|
      ensures root != 0 ==> root < PHYSPAGES && old(role)[root].Free? && Space(Now(), root, 0, map[])
      ensures root != 0 ==> Foreign(old(Now()), Now(), root, 0, 0) && role == old(role)[root := Table(root, 2, 0, root)]
    {
      hide FreeOk, Pte;
      ghost var m0 := Now();
      root := KAlloc();
      if root == 0 {
        return;
      }
      ghost var tab1, role1 := tab, role;
      tab := tab[root := Zeros()];
      LooseFrame(m0.tab, m0.role, tab, role, PHYSPAGES, 0);
      AddRoot(tab, role, root);
      role := role[root := Table(root, 2, 0, root)];
      FreeFrame(tab1, role1, free, head, lo, tab, role);
    }

    /** uvmfree: every page of the address space goes back to the free list. */
    method UvmFree(root: nat, sz: nat)
      requires Valid() && Space(Now(), root, PagesOf(sz), map[])
      modifies this`tab, this`data, this`head, this`role, this`free
      ensures Valid() && Erased(old(Now()), Now(), root)
    {
      hide FreeOk, TreeBut, Pte, OwnPage, Under;
      ghost var m0 := Now();
      FitsMemory(m0, root, PagesOf(sz), map[]);
      RemovedNone(m0, root, 0, true);
      if sz > 0 {
        Unmap(root, 0, PagesOf(sz), true);
      }
      ghost var m1 := Now();
      SpaceShrunk(m0, m1, root, PagesOf(sz), 0, map[]);
      NothingMapped(m1, root);
      FreeWalk(root);
      ErasedAll(m0, m1, Now(), root);
    }

    /** Map one page of the kernel's into an address space that has no memory yet. */
    method Hook(root: nat, v: nat, ppn: nat, perm: nat, ghost hi: map<nat, nat>) returns (ok: bool)
      requires Valid() && Space(Now(), root, 0, hi) && HiOk(Now(), hi) && PHYSPAGES < v < VPNS && v !in hi
      requires 0 < ppn < PHYSPAGES && Solid(role[ppn]) && perm < 1024 && Rwx(perm) && !U(perm)
      modifies this`tab, this`data, this`head, this`role, this`free
      ensures Valid() && Foreign(old(Now()), Now(), root, 0, 0)
      ensures var hi' := if ok then hi[v := Leaf(ppn, perm)] else hi; Space(Now(), root, 0, hi') && HiOk(Now(), hi')
      ensures |free| + 2 >= |old(free)| && (!ok ==> |old(free)| < 2)
    {
      hide FreeOk, TreeBut, Pte, Added, Space, HiOk, Leaf;
      ghost var m := Now();
      SpaceRoot(m, root, 0, hi);
      SpaceVacant(m, root, hi, v);
      ghost var n;
      ok, n := MapPages(root, v * PGSIZE, PGSIZE, ppn * PGSIZE, perm, false);
      AddedForeign(m, Now(), root, v, n, ppn, perm);
      HiHooked(m, Now(), root, hi, v, ppn, perm);
      if ok {
        SpaceHooked(m, Now(), root, 0, hi, v, ppn, perm);
      } else {
        AddedZero(m, Now(), root, v, ppn, perm, false);
        SpaceGrew(m, Now(), root, 0, hi);
      }
    }

    /** proc_pagetable: on failure every page is where it was. */
    method ProcPagetable(tf: nat) returns (root: nat)
      requires Valid() && 0 < tf < PHYSPAGES && role[tf].Held?
      modifies this`tab, this`data, this`head, this`role, this`free
      ensures Valid()
      ensures root == 0 ==> Restored(old(Now()), Now())
      ensures root != 0 ==> root < PHYSPAGES && old(role)[root].Free? && Foreign(old(Now()), Now(), root, 0, 0)
      ensures root != 0 ==> Space(Now(), root, 0, Hi(tramp, tf)) && HiOk(Now(), Hi(tramp, tf))
      ensures if root == 0 then |old(free)| < 5 else |free| + 5 >= |old(free)|
    {
      hide FreeOk, TreeBut, Pte, Space, HiOk, Removed, Erased, Foreign, Mine;
      ghost var m0 := Now();
      root := UvmCreate();
      if root == 0 {
        ErasedNothing(m0);
        return;
      }
      ghost var m1 := Now();
      NoneOf(m0, root);
      TrampPage(tab, role, free, head, lo, tramp);
      NoHi(m1);
      var ok := Hook(root, TRAMPOLINE, tramp, PTE_R + PTE_X, map[]);
      ghost var m2 := Now();
      ForeignTwice(m0, m1, m2, root);
      if !ok {
        UvmFree(root, 0);
        ForeignErased(m0, m2, Now(), root);
        ErasedNew(m0, Now(), root);
        return 0;
      }
      ForeignSolid(m0, m2, root, tf);
      ok := Hook(root, TRAPFRAME, tf, PTE_R + PTE_W, map[][TRAMPOLINE := Leaf(tramp, PTE_R + PTE_X)]);
      ghost var m3 := Now();
      ForeignTwice(m0, m2, m3, root);
      if !ok {
        SpaceRoot(m3, root, 0, map[][TRAMPOLINE := Leaf(tramp, PTE_R + PTE_X)]);
        SpaceShared(m3, root, 0, map[][TRAMPOLINE := Leaf(tramp, PTE_R + PTE_X)], TRAMPOLINE);
        Unmap(root, TRAMPOLINE, 1, false);
        ghost var m4 := Now();
        SpaceUnhooked(m3, m4, root, 0, map[][TRAMPOLINE := Leaf(tramp, PTE_R + PTE_X)], TRAMPOLINE);
        assert map[][TRAMPOLINE := Leaf(tramp, PTE_R + PTE_X)] - {TRAMPOLINE} == map[];
        UvmFree(root, 0);
        RemovedForeign(m3, m4, root, TRAMPOLINE, 1, false);
        ForeignTwice(m0, m3, m4, root);
        ForeignErased(m0, m4, Now(), root);
        ErasedNew(m0, Now(), root);
        return 0;
      }
      assert Hi(tramp, tf) == map[][TRAMPOLINE := Leaf(tramp, PTE_R + PTE_X)][TRAPFRAME := Leaf(tf, PTE_R + PTE_W)];
    }

    /** proc_freepagetable: exactly the pages of the address space become free. */
    method ProcFreePagetable(root: nat, sz: nat, ghost tf: nat)
      requires Valid() && Space(Now(), root, PagesOf(sz), Hi(tramp, tf))
      modifies this`tab, this`data, this`head, this`role, this`free
      ensures Valid() && Erased(old(Now()), Now(), root)
    {
      hide FreeOk, TreeBut, Pte, Space, Removed, Erased;
      ghost var m0, hi := Now(), Hi(tramp, tf);
      SpaceRoot(m0, root, PagesOf(sz), hi);
      SpaceShared(m0, root, PagesOf(sz), hi, TRAMPOLINE);
      Unmap(root, TRAMPOLINE, 1, false);
      ghost var m1 := Now();
      SpaceUnhooked(m0, m1, root, PagesOf(sz), hi, TRAMPOLINE);
      hi := hi - {TRAMPOLINE};
      SpaceShared(m1, root, PagesOf(sz), hi, TRAPFRAME);
      Unmap(root, TRAPFRAME, 1, false);
      ghost var m2 := Now();
      SpaceUnhooked(m1, m2, root, PagesOf(sz), hi, TRAPFRAME);
      assert hi - {TRAPFRAME} == map[];
      UvmFree(root, sz);
      RemovedForeign(m0, m1, root, TRAMPOLINE, 1, false);
      RemovedForeign(m1, m2, root, TRAPFRAME, 1, false);
      ForeignTwice(m0, m1, m2, root);
      ForeignErased(m0, m2, Now(), root);
    }

    /** uvmcopy: on success the copy maps the same virtual pages with the same flags and contents; on failure
        it has gained nothing but tables. Either way the original is as it was. */
    method UvmCopy(from: nat, to: nat, sz: nat, ghost hf: map<nat, nat>, ghost hi: map<nat, nat>) returns (ok: bool)
      requires Valid() && from != to
      requires Space(Now(), from, PagesOf(sz), hf) && Space(Now(), to, 0, hi) && HiOk(Now(), hi)
      modifies this`tab, this`data, this`head, this`role, this`free
      ensures Valid()
      ensures ok ==> Extended(old(Now()), Now(), to, 0, PagesOf(sz)) && Space(Now(), to, PagesOf(sz), hi)
      ensures ok ==> Copies(Now(), from, to, PagesOf(sz))
      ensures !ok ==> OnlyTables(old(Now()), Now(), to) && Space(Now(), to, 0, hi)
      ensures |free| + 3 * PagesOf(sz) >= |old(free)| && (!ok ==> |old(free)| < 3 * PagesOf(sz))
    {
      hide FreeOk, TreeBut, Extended, Filled, OnlyTables, Copies, Space, HiOk, Pte, Leaf, Removed, OwnPage, Foreign;
      ghost var m0 := Now();
      FitsMemory(m0, from, PagesOf(sz), hf);
      NotExtended(m0, to, 0);
      CopiesNone(m0, from, to);
      SpaceRoot(m0, from, PagesOf(sz), hf);
      var i := 0;
      while i * PGSIZE < sz
        invariant 0 <= i <= PagesOf(sz) <= PHYSPAGES && |free| + 3 * i >= |old(free)|
        invariant Valid() && Extended(m0, Now(), to, 0, i) && Space(Now(), to, i, hi) && HiOk(Now(), hi)
        invariant IsRoot(role, from) && Copies(Now(), from, to, i)
        decreases PagesOf(sz) - i
      {
        ghost var m := Now();
        SourcePage(m0, m, from, PagesOf(sz), hf, to, i);
        var q := Walk(from, i, false);
        GrewRefl(m, from);
        MappedBy(tab, role, from, i);
        EntryFound(m, m, from, i, q);
        var pte := tab[q][i % 512];
        SpaceTop(m, to, i, hi);
        var placed;
        ghost var page;
        placed, page := AllocPage(to, i, Flags(pte), data[Ppn(pte)]);
        if !placed {
          ghost var m1 := Now();
          ExtendedThenTables(m0, m, m1, to, 0, i);
          SpaceAgain(m0, m1, to, 0, i, hi);
          SpaceOwns(m1, to, i, hi);
          Unmap(to, 0, i, true);
          SpaceGap(m0, to, 0, i, hi);
          Undone(m0, m1, Now(), to, 0, i);
          SpaceBack(m0, Now(), to, 0, hi);
          return false;
        }
        FilledForeign(m, Now(), to, i, page, Flags(pte));
        Untouched(m, Now(), to, 0, 0, from, i);
        CopiesMore(m, Now(), from, to, i, page);
        ExtendedMore(m0, m, Now(), to, 0, i, page, Flags(pte));
        SpaceAgain(m0, Now(), to, 0, i + 1, hi);
        i := i + 1;
      }
      ok := true;
    }

    /** walkaddr: the page behind va if user code can reach it, otherwise 0. */
    method WalkAddr(root: nat, va: nat) returns (pa: nat)
      requires Valid() && IsRoot(role, root)
      modifies this`tab, this`data, this`head, this`role, this`free
      ensures Valid() && Now() == old(Now()) && head == old(head)
      ensures pa == 0 <==> !Reach(Now(), root, va)
      ensures pa != 0 ==> pa == Ppn(Pte(tab, root, va / PGSIZE)) * PGSIZE && pa / PGSIZE < PHYSPAGES
    {
      hide FreeOk, TreeBut, Grew;
      if va >= MAXVA {
        return 0;
      }
      var q := Walk(root, va / PGSIZE, false);
      if q == 0 {
        return 0;
      }
      var pte := tab[q][va / PGSIZE % 512];
      if !V(pte) {
        return 0;
      }
      if !U(pte) {
        return 0;
      }
      ReachOwn(Now(), root, va);
      pa := Pte2Pa(pte);
    }

    /** copyout: as many bytes as can be reached from dstva on are written, in order; n counts them. */
    method CopyOut(root: nat, dstva: nat, src: seq<byte>) returns (ok: bool, ghost n: nat)
      requires Valid() && IsRoot(role, root)
      modifies this`tab, this`data, this`head, this`role, this`free
      ensures Valid() && n <= |src| && Wrote(old(Now()), Now(), root, dstva, src[..n])
      ensures forall a: nat :: dstva <= a < dstva + n ==> Reach(old(Now()), root, a)
      ensures if ok then n == |src| else n < |src| && !Reach(old(Now()), root, dstva + n)
    {
      hide FreeOk, TreeBut, Pte, Reach, Wrote;
      ghost var m0 := Now();
      WroteNothing(m0, root, dstva);
      var va, done := dstva, 0;
      while done < |src|
        invariant 0 <= done <= |src| && va == dstva + done && Valid() && IsRoot(role, root)
        invariant Wrote(m0, Now(), root, dstva, src[..done])
        invariant forall a: nat :: dstva <= a < dstva + done ==> Reach(m0, root, a)
      {
        ghost var m := Now();
        WroteSame(m0, m, root, dstva, src[..done], va);
        var pa0 := WalkAddr(root, va);
        if pa0 == 0 {
          return false, done;
        }
        SplitAddress(va);
        var off := va % PGSIZE;
        var k := if PGSIZE - off > |src| - done then |src| - done else PGSIZE - off;
        var p := pa0 / PGSIZE;
        var page := Patch(data[p], off, src[done..done + k]);
        data := data[p := page];
        WrotePage(m, Now(), root, va, src[done..done + k], p);
        assert src[..done] + src[done..done + k] == src[..done + k];
        WroteMore(m0, m, Now(), root, dstva, src[..done], src[done..done + k]);
        forall a: nat | va <= a < va + k ensures Reach(m0, root, a) {
          ReachRest(m0, root, va, a);
        }
        done := done + k;
        va := va + k;
      }
      assert src[..done] == src;
      return true, done;
    }

    /** copyin: the bytes from srcva on, up to the first that cannot be reached. */
    method CopyIn(root: nat, srcva: nat, len: nat) returns (ok: bool, dst: seq<byte>)
      requires Valid() && IsRoot(role, root)
      modifies this`tab, this`data, this`head, this`role, this`free
      ensures Valid() && Now() == old(Now()) && |dst| <= len && Holds(Now(), root, srcva, dst)
      ensures if ok then |dst| == len else |dst| < len && !Reach(Now(), root, srcva + |dst|)
    {
      hide FreeOk, TreeBut, Pte, Reach, Holds, At;
      dst := [];
      HoldsNothing(Now(), root, srcva);
      while |dst| < len
        invariant |dst| <= len && Valid() && Now() == old(Now()) && IsRoot(role, root) && Holds(Now(), root, srcva, dst)
      {
        var va := srcva + |dst|;
        var pa0 := WalkAddr(root, va);
        if pa0 == 0 {
          return false, dst;
        }
        SplitAddress(va);
        var off := va % PGSIZE;
        var k := if PGSIZE - off > len - |dst| then len - |dst| else PGSIZE - off;
        PageHolds(Now(), root, va, k);
        HoldsMore(Now(), root, srcva, dst, data[pa0 / PGSIZE][off..off + k]);
        dst := dst + data[pa0 / PGSIZE][off..off + k];
      }
      ok := true;
    }

    /** The inner loop of copyinstr: n bytes of one page, up to and including a NUL. */
    method ScanPage(root: nat, va: nat, pa: nat, n: nat, ghost max: nat, dst0: seq<byte>) returns (gotNull: bool, dst: seq<byte>)
      requires Valid() && IsRoot(role, root) && Reach(Now(), root, va) && va % PGSIZE + n <= PGSIZE && n <= max
      requires pa == Ppn(Pte(tab, root, va / PGSIZE)) * PGSIZE && pa / PGSIZE < PHYSPAGES
      ensures gotNull ==> After(dst0, Str(Now(), root, va, max)) == Some(dst)
      ensures !gotNull ==> |dst| == |dst0| + n && After(dst0, Str(Now(), root, va, max)) == After(dst, Str(Now(), root, va + n, max - n))
    {
      hide FreeOk, TreeBut, Pte, Reach;
      dst := dst0;
      var k := 0;
      while k < n
        invariant 0 <= k <= n && |dst| == |dst0| + k
        invariant After(dst0, Str(Now(), root, va, max)) == After(dst, Str(Now(), root, va + k, max - k))
      {
        SplitAddress(va);
        SamePage(va, va + k);
        ReachPage(Now(), root, va, va + k);
        var b := data[pa / PGSIZE][va % PGSIZE + k];
        assert b == At(Now(), root, va + k);
        if b == 0 {
          return true, dst + [0];
        }
        AfterTwice(dst, [b], Str(Now(), root, va + k + 1, max - k - 1));
        dst := dst + [b];
        k := k + 1;
      }
      gotNull := false;
    }

    /** copyinstr: as reading a byte at a time would. */
    method CopyInStr(root: nat, srcva: nat, max: nat) returns (ok: bool, dst: seq<byte>)
      requires Valid() && IsRoot(role, root)
      modifies this`tab, this`data, this`head, this`role, this`free
      ensures Valid() && Now() == old(Now())
      ensures Str(Now(), root, srcva, max) == if ok then Some(dst) else None
    {
      hide FreeOk, TreeBut, Pte, Reach, At;
      dst := [];
      ok := false;
      ghost var m := Now();
      AfterNothing(Str(m, root, srcva, max));
      while !ok && |dst| < max
        invariant Valid() && Now() == m && IsRoot(role, root)
        invariant ok ==> Str(m, root, srcva, max) == Some(dst)
        invariant !ok ==> |dst| <= max && Str(m, root, srcva, max) == After(dst, Str(m, root, srcva + |dst|, max - |dst|))
        decreases !ok, max - |dst|
      {
        var va := srcva + |dst|;
        var pa0 := WalkAddr(root, va);
        if pa0 == 0 {
          return false, dst;
        }
        SplitAddress(va);
        var n := if PGSIZE - va % PGSIZE > max - |dst| then max - |dst| else PGSIZE - va % PGSIZE;
        ok, dst := ScanPage(root, va, pa0, n, max - |dst|, dst);
      }
    }

    // ----- processes -----

    /** The state between operations of processes. */
    ghost predicate Steady()
      reads this
    {
      Valid() && AllLive(Now(), procs, tramp) && AllSettled(Now(), procs)
    }

    /** The saved registers of a process. */
    function Trapframe(root: nat): seq<byte>
      reads this
      requires root in procs && procs[root].tf < |data|
    {
      data[procs[root].tf]
    }

    /** The memory side of allocproc. */
    method AllocProc() returns (root: nat)
      requires Steady()
      modifies this`tab, this`data, this`head, this`role, this`free, this`procs
      ensures Steady()
      ensures root == 0 ==> procs == old(procs) && Restored(old(Now()), Now())
      ensures root != 0 ==> root !in old(procs) && root in procs && procs == old(procs)[root := Proc(0, procs[root].tf)]
      ensures root != 0 ==> Spawned(old(Now()), Now(), root, procs[root].tf)
      ensures if root == 0 then |old(free)| < 6 else |free| + 6 >= |old(free)|
    {
      hide FreeOk, TreeBut, Foreign, Live, Restored, AllSettled, Mine, Pte, Space, HiOk, AllLive;
      ghost var m0 := Now();
      ErasedNothing(m0);
      var tf := KAlloc();
      if tf == 0 {
        return 0;
      }
      ghost var m1 := Now();
      LooseFrame(m0.tab, m0.role, tab, role, PHYSPAGES, 0);
      root := ProcPagetable(tf);
      ghost var m2 := Now();
      if root == 0 {
        RestoredPage(m1, m2, tf);
        KFree(tf);
        LooseFrame(m2.tab, m2.role, tab, role, PHYSPAGES, 0);
        GaveTrap(m0, m1, m2, Now(), tf);
        RestoredLive(m0, Now(), procs, tramp);
        return;
      }
      TrampPage(tab, role, free, head, lo, tramp);
      ForeignSolid(m1, m2, root, tf);
      role := role[tf := Trap(root)];
      LooseFrame(m2.tab, m2.role, tab, role, PHYSPAGES, 0);
      FreeFrame(m2.tab, m2.role, free, head, lo, tab, role);
      NewLive(m0, m1, m2, Now(), root, tf, procs, tramp);
      procs := procs[root := Proc(0, tf)];
    }

    /** The memory side of freeproc: exactly the pages of the process become free. */
    method FreeProc(root: nat)
      requires Steady() && root in procs
      modifies this`tab, this`data, this`head, this`role, this`free, this`procs
      ensures Steady() && procs == old(procs) - {root} && Reaped(old(Now()), Now(), root, old(procs)[root].tf)
    {
      hide FreeOk, TreeBut, Foreign, Erased, Live, AllSettled, AllLive, Mine, Pte, Space, HiOk;
      ghost var m0, p := Now(), procs[root];
      LiveProc(m0, procs, root, tramp);
      KFree(procs[root].tf);
      ghost var m1 := Now();
      LooseFrame(m0.tab, m0.role, tab, role, PHYSPAGES, 0);
      TrapFreed(m0, m1, root, p, tramp);
      ProcFreePagetable(root, procs[root].sz, p.tf);
      AfterReaped(m0, m1, Now(), root, procs, tramp);
      procs := procs - {root};
    }

    /** growproc, with n the argument of sbrk. Shrinking by more than the size changes nothing: the new size
        wraps around and looks larger. */
    method GrowProc(root: nat, n: int) returns (ok: bool)
      requires Steady() && root in procs && -0x8000_0000 <= n < 0x8000_0000
      modifies this`tab, this`data, this`head, this`role, this`free, this`procs
      ensures Steady() && root in procs && procs == old(procs)[root := Proc(procs[root].sz, old(procs)[root].tf)]
      ensures var sz := old(procs)[root].sz;
              && (n >= 0 && ok ==> procs[root].sz == sz + n && Extended(old(Now()), Now(), root, PagesOf(sz), PagesOf(sz + n))
                                   && Zeroed(Now(), root, PagesOf(sz), PagesOf(sz + n), PTE_R + PTE_U + PTE_W))
              && (n < 0 ==> ok && procs[root].sz == (if sz + n >= 0 then sz + n else sz) && PagesOf(procs[root].sz) <= PagesOf(sz)
                            && Removed(old(Now()), Now(), root, PagesOf(procs[root].sz), PagesOf(sz) - PagesOf(procs[root].sz), true))
              && (!ok ==> procs[root].sz == sz && OnlyTables(old(Now()), Now(), root)
                          && |old(free)| < 3 * (PagesOf(sz + n) - PagesOf(sz)))
    {
      hide FreeOk, TreeBut, Foreign, Live, AllSettled, AllLive, Pte, Space, HiOk, Extended, OnlyTables, Zeroed, Removed, Hi;
      ghost var m0, hi := Now(), Hi(tramp, procs[root].tf);
      LiveProc(m0, procs, root, tramp);
      var sz := procs[root].sz;
      if n > 0 {
        sz := UvmAlloc(root, sz, sz + n, PTE_W, hi);
        if sz == 0 {
          TablesForeign(m0, Now(), root);
          Resized(m0, Now(), root, procs, procs[root].sz, tramp);
          assert procs == procs[root := Proc(procs[root].sz, procs[root].tf)];
          return false;
        }
        ExtendedForeign(m0, Now(), root, PagesOf(procs[root].sz), PagesOf(sz));
      } else if n < 0 {
        sz := UvmDealloc(root, sz, (sz + n) % 0x1_0000_0000_0000_0000, hi);
        WrapsAround(m0, root, procs[root].sz, hi, n);
        SpaceShrunk(m0, Now(), root, PagesOf(procs[root].sz), PagesOf(sz), hi);
        RemovedForeign(m0, Now(), root, PagesOf(sz), PagesOf(procs[root].sz) - PagesOf(sz), true);
      } else {
        NotExtended(m0, root, PagesOf(sz));
        NoneZeroed(m0, root, PagesOf(sz), PTE_R + PTE_U + PTE_W);
        TablesForeign(m0, m0, root);
        SpaceOwns(m0, root, PagesOf(sz), hi);
      }
      Resized(m0, Now(), root, procs, sz, tramp);
      procs := procs[root := Proc(sz, procs[root].tf)];
      ok := true;
    }

    /** The memory side of fork: 0 on failure, with every page back where it was. */
    method Fork(parent: nat) returns (child: nat)
      requires Steady() && parent in procs
      modifies this`tab, this`data, this`head, this`role, this`free, this`procs
      ensures Steady()
      ensures child == 0 ==> procs == old(procs) && Restored(old(Now()), Now())
                             && |old(free)| < 6 + 3 * PagesOf(old(procs)[parent].sz)
      ensures child != 0 ==> child !in old(procs) && child in procs
                             && procs == old(procs)[child := Proc(old(procs)[parent].sz, procs[child].tf)]
                             && Spawned(old(Now()), Now(), child, procs[child].tf)
                             && Copies(Now(), parent, child, PagesOf(old(procs)[parent].sz))
                             && Trapframe(child) == Patch(Trapframe(parent), A0, [0, 0, 0, 0, 0, 0, 0, 0])
    {
      hide FreeOk, TreeBut, Foreign, Live, AllSettled, AllLive, Pte, Space, HiOk, Extended, OnlyTables, Copies, Restored, Spawned, Reaped, Hi, Mine;
      ghost var m0 := Now();
      child := AllocProc();
      if child == 0 {
        return;
      }
      ghost var m1, tf := Now(), procs[child].tf;
      SpawnedTrap(m0, m1, child, tf);
      NotMine(m0, old(procs), child, tf);
      LiveProc(m1, procs, parent, tramp);
      LiveProc(m1, procs, child, tramp);
      var ok := UvmCopy(parent, child, procs[parent].sz, Hi(tramp, procs[parent].tf), Hi(tramp, procs[child].tf));
      ghost var m2 := Now();
      if !ok {
        TablesForeign(m1, m2, child);
        Resized(m1, m2, child, procs, 0, tramp);
        assert procs == procs[child := Proc(0, tf)];
        FreeProc(child);
        FailedFork(m0, m1, m2, Now(), child, tf);
        assert procs == old(procs);
        return 0;
      }
      ExtendedForeign(m1, m2, child, 0, PagesOf(procs[parent].sz));
      Resized(m1, m2, child, procs, procs[parent].sz, tramp);
      procs := procs[child := Proc(procs[parent].sz, procs[child].tf)];
      ghost var m3 := Now();
      data := data[procs[child].tf := Patch(data[procs[parent].tf], A0, [0, 0, 0, 0, 0, 0, 0, 0])];
      LiveProc(m3, procs, child, tramp);
      LiveProc(m3, procs, parent, tramp);
      OnlyContents(m3, Now(), procs, tramp);
      ForkSpawned(m0, m1, m2, Now(), child, tf);
      CopiesStay(m3, Now(), parent, child, PagesOf(procs[parent].sz), procs[child].tf);
    }
  }
}
