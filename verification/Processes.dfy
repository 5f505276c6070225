/** All processes together: every page has one owner, and an operation of one process is not felt by another. */
module Processes {
  import opened Common
  import opened PageTable
  import opened Pages
  import opened Spaces
  import opened UserCopy

  /** The memory of a process: its size and its trapframe page. Processes are told apart by their page tables. */
  datatype Proc = Proc(sz: nat, tf: nat)

  ghost predicate Live(m: Mem, root: nat, p: Proc, tramp: nat) {
    && Space(m, root, PagesOf(p.sz), Hi(tramp, p.tf)) && HiOk(m, Hi(tramp, p.tf))
    && 0 < p.tf < PHYSPAGES && m.role[p.tf] == Trap(root) && tramp < PHYSPAGES && m.role[tramp].Kernel?
  }

  ghost predicate AllLive(m: Mem, procs: map<nat, Proc>, tramp: nat) {
    forall r :: r in procs ==> Live(m, r, procs[r], tramp)
  }

  /** A page outside the kernel is free or belongs to one of the processes. */
  ghost predicate Settled(rl: Role, p: nat, procs: map<nat, Proc>) {
    match rl
    case Kernel => true
    case Free(_) => true
    case Held => false
    case Trap(of) => of in procs && procs[of].tf == p
    case Table(root, _, _, _) => root in procs
    case Data(root, _, _) => root in procs
  }

  ghost predicate AllSettled(m: Mem, procs: map<nat, Proc>) {
    Sized(m) && forall p: nat :: p < PHYSPAGES ==> Settled(m.role[p], p, procs)
  }

  /** A process is not affected by operations on another address space, nor by what happens to the n pages
      from x, as long as they are none of its own. */
  lemma OtherLive(m: Mem, m': Mem, root: nat, x: nat, n: nat, r: nat, p: Proc, tramp: nat)
    requires Foreign(m, m', root, x, n) && Tree(m.tab, m.role) && r != root && Live(m, r, p, tramp)
    requires forall q: nat :: x <= q < x + n && q < PHYSPAGES ==> Loose(m.role[q]) && !m.role[q].Kernel? && m.role[q] != Trap(r)
    ensures Live(m', r, p, tramp)
  {
    hide Pte, EntryOk, TableOk, DataOk, Leaf;
    var hi := Hi(tramp, p.tf);
    forall v: nat | v < VSPACE
      ensures IsRoot(m'.role, r) && Pte(m'.tab, r, v) == Pte(m.tab, r, v) && (OwnPage(m, r, v) ==> OwnPage(m', r, v))
    {
      Untouched(m, m', root, x, n, r, v);
    }
    hide TreeBut;
    assert IsRoot(m'.role, r) by {
      Untouched(m, m', root, x, n, r, 0);
    }
    LeafBits(tramp, PTE_R + PTE_X);
    LeafBits(p.tf, PTE_R + PTE_W);
    forall v: nat | v in hi ensures SharedPage(m', r, v) {
      assert SharedPage(m, r, v);
    }
  }

  /** After an operation on the address space of root, everyone else is as before. */
  lemma OthersLive(m: Mem, m': Mem, root: nat, x: nat, n: nat, procs: map<nat, Proc>, tramp: nat)
    requires Foreign(m, m', root, x, n) && Tree(m.tab, m.role) && AllLive(m, procs, tramp)
    requires forall q: nat :: x <= q < x + n && q < PHYSPAGES ==>
               Loose(m.role[q]) && !m.role[q].Kernel? && (m.role[q].Trap? ==> m.role[q].of == root)
    ensures AllLive(m', procs - {root}, tramp)
  {
    hide Foreign, TreeBut, Live;
    forall r | r in procs - {root} ensures Live(m', r, procs[r], tramp) {
      OtherLive(m, m', root, x, n, r, procs[r], tramp);
    }
  }

  lemma LiveProc(m: Mem, procs: map<nat, Proc>, root: nat, tramp: nat)
    requires AllLive(m, procs, tramp) && root in procs
    ensures var p := procs[root];
            && Live(m, root, p, tramp) && 0 < p.tf < PHYSPAGES && Sized(m) && m.role[p.tf] == Trap(root)
            && Space(m, root, PagesOf(p.sz), Hi(tramp, p.tf)) && HiOk(m, Hi(tramp, p.tf)) && IsRoot(m.role, root)
  {
  }

  lemma StillSettled(m: Mem, m': Mem, root: nat, procs: map<nat, Proc>, p: Proc)
    requires Foreign(m, m', root, 0, 0) && AllSettled(m, procs) && root in procs && p.tf == procs[root].tf
    ensures AllSettled(m', procs[root := p])
  {
  }

  // ----- new processes -----

  /** Pages that were free have gone to the new process; nothing else has changed. */
  ghost predicate Spawned(m: Mem, m': Mem, root: nat, tf: nat) {
    && Sized(m) && Sized(m') && tf < PHYSPAGES && m.role[tf].Free?
    && forall p: nat :: p < PHYSPAGES ==>
         if m.role[p].Free? then m'.role[p].Free? || Mine(m'.role[p], root) || p == tf
         else m'.role[p] == m.role[p] && m'.tab[p] == m.tab[p] && m'.data[p] == m.data[p]
  }

  lemma RestoredPage(m: Mem, m': Mem, p: nat)
    requires Restored(m, m') && p < PHYSPAGES && m.role[p].Held?
    ensures m'.role[p].Held?
  {
  }

  /** kalloc, a failing proc_pagetable, and kfree put every page back. */
  lemma GaveTrap(a: Mem, b: Mem, c: Mem, d: Mem, tf: nat)
    requires Sized(a) && Sized(b) && Sized(d) && tf < PHYSPAGES && a.role[tf].Free? && Restored(b, c)
    requires b.role == a.role[tf := Held] && b.tab == a.tab[tf := b.tab[tf]] && b.data == a.data[tf := b.data[tf]]
    requires d.role == c.role[tf := d.role[tf]] && d.role[tf].Free? && d.tab == c.tab[tf := d.tab[tf]] && d.data == c.data[tf := d.data[tf]]
    ensures Restored(a, d)
  {
  }

  lemma RestoredLive(m: Mem, m': Mem, procs: map<nat, Proc>, tramp: nat)
    requires Restored(m, m') && Tree(m.tab, m.role) && AllLive(m, procs, tramp) && AllSettled(m, procs)
    ensures AllLive(m', procs, tramp) && AllSettled(m', procs)
  {
    assert Loose(m.role[0]);
    assert 0 !in procs by {
      if 0 in procs {
        LiveProc(m, procs, 0, tramp);
        assert false;
      }
    }
    assert AllLive(m', procs - {0}, tramp) by {
      hide TreeBut, AllLive, AllSettled;
      OthersLive(m, m', 0, 0, 0, procs, tramp);
    }
    assert procs - {0} == procs;
    forall x: nat | x < PHYSPAGES ensures Settled(m'.role[x], x, procs) {
      assert Settled(m.role[x], x, procs);
    }
  }

  lemma NewLive(a: Mem, b: Mem, c: Mem, d: Mem, root: nat, tf: nat, procs: map<nat, Proc>, tramp: nat)
    requires Sized(a) && Sized(b) && 0 < tf < PHYSPAGES && a.role[tf].Free? && Tree(a.tab, a.role) && Tree(b.tab, b.role) && Tree(c.tab, c.role)
    requires b.role == a.role[tf := Held] && b.tab == a.tab[tf := b.tab[tf]] && b.data == a.data[tf := b.data[tf]]
    requires Foreign(b, c, root, 0, 0) && root < PHYSPAGES && b.role[root].Free? && c.role[tf].Held?
    requires d == c.(role := c.role[tf := Trap(root)])
    requires Space(c, root, 0, Hi(tramp, tf)) && HiOk(c, Hi(tramp, tf)) && tramp < PHYSPAGES && c.role[tramp].Kernel?
    requires AllLive(a, procs, tramp) && AllSettled(a, procs)
    ensures root !in procs && Spawned(a, d, root, tf)
    ensures AllLive(d, procs[root := Proc(0, tf)], tramp) && AllSettled(d, procs[root := Proc(0, tf)])
  {
    hide Live, Space, HiOk, TreeBut, Pte, AllLive, Foreign, Mine;
    NotLive(a, procs, root, tramp);
    NewSettled(a, b, c, d, root, tf, procs);
    TrapLive(c, d, root, tf, tramp);
    assert procs - {root} == procs;
    OthersLive(a, b, root, tf, 1, procs, tramp);
    OthersLive(b, c, root, 0, 0, procs, tramp);
    OthersLive(c, d, root, tf, 1, procs, tramp);
    LiveMore(d, procs, root, Proc(0, tf), tramp);
  }

  lemma NotLive(m: Mem, procs: map<nat, Proc>, root: nat, tramp: nat)
    requires AllLive(m, procs, tramp) && Sized(m) && root < PHYSPAGES && m.role[root].Free?
    ensures root !in procs
  {
  }

  lemma LiveMore(m: Mem, procs: map<nat, Proc>, root: nat, p: Proc, tramp: nat)
    requires AllLive(m, procs - {root}, tramp) && Live(m, root, p, tramp)
    ensures AllLive(m, procs[root := p], tramp)
  {
    hide Live;
    var more := procs[root := p];
    forall r | r in more ensures Live(m, r, more[r], tramp) {
      assert r != root ==> r in procs - {root};
    }
  }

  lemma TrapLive(m: Mem, m': Mem, root: nat, tf: nat, tramp: nat)
    requires Sized(m) && Tree(m.tab, m.role) && 0 < tf < PHYSPAGES && m.role[tf].Held? && m' == m.(role := m.role[tf := Trap(root)])
    requires Space(m, root, 0, Hi(tramp, tf)) && HiOk(m, Hi(tramp, tf)) && tramp < PHYSPAGES && m.role[tramp].Kernel?
    ensures Live(m', root, Proc(0, tf), tramp)
  {
    hide TreeBut, Pte, HiOk, Space;
    SpaceLoose(m, m', root, 0, tramp, tf);
  }

  lemma NewSettled(a: Mem, b: Mem, c: Mem, d: Mem, root: nat, tf: nat, procs: map<nat, Proc>)
    requires Sized(a) && Sized(b) && 0 < tf < PHYSPAGES && a.role[tf].Free?
    requires b.role == a.role[tf := Held] && b.tab == a.tab[tf := b.tab[tf]] && b.data == a.data[tf := b.data[tf]]
    requires Foreign(b, c, root, 0, 0) && c.role[tf].Held? && d == c.(role := c.role[tf := Trap(root)])
    requires AllSettled(a, procs) && root !in procs
    ensures Spawned(a, d, root, tf) && Foreign(a, b, root, tf, 1) && Foreign(c, d, root, tf, 1)
    ensures AllSettled(d, procs[root := Proc(0, tf)])
  {
  }

  /** Whose page the trapframe is does not matter to the address space that maps it. */
  lemma SpaceLoose(m: Mem, m': Mem, root: nat, n: nat, tramp: nat, tf: nat)
    requires Space(m, root, n, Hi(tramp, tf)) && Tree(m.tab, m.role) && Sized(m') && tf < PHYSPAGES && tramp < PHYSPAGES
    requires Loose(m.role[tf]) && Loose(m'.role[tf]) && m'.role == m.role[tf := m'.role[tf]] && m'.tab == m.tab[tf := m'.tab[tf]]
    ensures Space(m', root, n, Hi(tramp, tf))
    ensures Solid(m'.role[tf]) && HiOk(m, Hi(tramp, tf)) ==> HiOk(m', Hi(tramp, tf))
  {
    hide Pte, EntryOk, TableOk, DataOk, Leaf;
    forall v: nat | v < VSPACE ensures Pte(m'.tab, root, v) == Pte(m.tab, root, v) && (OwnPage(m, root, v) ==> OwnPage(m', root, v)) {
      PteFrame(m.tab, m.role, m'.tab, root, v);
    }
    hide TreeBut;
    forall v: nat | v in Hi(tramp, tf) ensures SharedPage(m', root, v) {
      assert SharedPage(m, root, v);
    }
  }

  // ----- processes that go away -----

  /** Exactly the pages of the process have become free. */
  ghost predicate Reaped(m: Mem, m': Mem, root: nat, tf: nat) {
    && Sized(m) && Sized(m')
    && forall p: nat :: p < PHYSPAGES ==>
         if Mine(m.role[p], root) || m.role[p].Free? || p == tf then m'.role[p].Free?
         else m'.role[p] == m.role[p] && m'.tab[p] == m.tab[p] && m'.data[p] == m.data[p]
  }

  lemma TrapFreed(m: Mem, m': Mem, root: nat, p: Proc, tramp: nat)
    requires Live(m, root, p, tramp) && Tree(m.tab, m.role) && Sized(m') && m'.role[p.tf].Free?
    requires m'.role == m.role[p.tf := m'.role[p.tf]] && m'.tab == m.tab[p.tf := m'.tab[p.tf]]
    ensures Space(m', root, PagesOf(p.sz), Hi(tramp, p.tf))
  {
    hide TreeBut, Pte;
    SpaceLoose(m, m', root, PagesOf(p.sz), tramp, p.tf);
  }

  lemma OneTrap(m: Mem, m1: Mem, root: nat, tf: nat)
    requires OnlyPage(m, m1, tf) && m.role[tf] == Trap(root)
    ensures |m.role| == PHYSPAGES && tf < PHYSPAGES
    ensures forall q: nat :: tf <= q < tf + 1 && q < PHYSPAGES ==>
              Loose(m.role[q]) && !m.role[q].Kernel? && (m.role[q].Trap? ==> m.role[q].of == root)
  {
  }

  lemma AfterReaped(m: Mem, m1: Mem, m2: Mem, root: nat, procs: map<nat, Proc>, tramp: nat)
    requires AllLive(m, procs, tramp) && AllSettled(m, procs) && root in procs && Tree(m.tab, m.role) && Tree(m1.tab, m1.role)
    requires OnlyPage(m, m1, procs[root].tf) && m1.role[procs[root].tf].Free? && m.role[procs[root].tf] == Trap(root)
    requires Erased(m1, m2, root)
    ensures Reaped(m, m2, root, procs[root].tf)
    ensures AllLive(m2, procs - {root}, tramp) && AllSettled(m2, procs - {root})
  {
    hide *;
    var tf := procs[root].tf;
    ReapedSettled(m, m1, m2, root, procs);
    OneTrap(m, m1, root, tf);
    OthersLive(m, m1, root, tf, 1, procs, tramp);
    OthersLive(m1, m2, root, 0, 0, procs - {root}, tramp);
    assert procs - {root} - {root} == procs - {root};
  }

  /** Nothing but page p differs. */
  ghost predicate OnlyPage(m: Mem, m': Mem, p: nat) {
    && Sized(m) && Sized(m') && p < PHYSPAGES
    && m'.role == m.role[p := m'.role[p]] && m'.tab == m.tab[p := m'.tab[p]] && m'.data == m.data[p := m'.data[p]]
  }

  lemma ReapedSettled(m: Mem, m1: Mem, m2: Mem, root: nat, procs: map<nat, Proc>)
    requires AllSettled(m, procs) && root in procs
    requires OnlyPage(m, m1, procs[root].tf) && m1.role[procs[root].tf].Free? && m.role[procs[root].tf] == Trap(root)
    requires Erased(m1, m2, root)
    ensures Reaped(m, m2, root, procs[root].tf) && AllSettled(m2, procs - {root})
    ensures Foreign(m, m1, root, procs[root].tf, 1) && Foreign(m1, m2, root, 0, 0)
  {
  }

  /** A fork that fails puts every page back. */
  lemma FailedFork(a: Mem, b: Mem, c: Mem, d: Mem, root: nat, tf: nat)
    requires Spawned(a, b, root, tf) && Foreign(b, c, root, 0, 0) && Reaped(c, d, root, tf) && b.role[tf] == Trap(root)
    requires forall p: nat :: p < PHYSPAGES && !a.role[p].Free? ==> !Mine(a.role[p], root) && p != tf
    ensures Restored(a, d)
  {
  }

  /** allocproc, uvmcopy, and the copy of the trapframe. */
  lemma ForkSpawned(a: Mem, b: Mem, c: Mem, d: Mem, root: nat, tf: nat)
    requires Spawned(a, b, root, tf) && Foreign(b, c, root, 0, 0) && b.role[tf] == Trap(root)
    requires Sized(d) && d == c.(data := c.data[tf := d.data[tf]])
    requires forall p: nat :: p < PHYSPAGES && !a.role[p].Free? ==> !Mine(a.role[p], root) && p != tf
    ensures Spawned(a, d, root, tf)
  {
  }

  lemma NotMine(m: Mem, procs: map<nat, Proc>, root: nat, tf: nat)
    requires AllSettled(m, procs) && root !in procs && tf < PHYSPAGES && m.role[tf].Free?
    ensures forall p: nat :: p < PHYSPAGES && !m.role[p].Free? ==> !Mine(m.role[p], root) && p != tf
  {
  }

  /** The process has a new size, to which its address space has been brought. */
  lemma Resized(m: Mem, m': Mem, root: nat, procs: map<nat, Proc>, sz: nat, tramp: nat)
    requires AllLive(m, procs, tramp) && AllSettled(m, procs) && root in procs && Tree(m.tab, m.role)
    requires Foreign(m, m', root, 0, 0) && Space(m', root, PagesOf(sz), Hi(tramp, procs[root].tf))
    ensures AllLive(m', procs[root := Proc(sz, procs[root].tf)], tramp) && AllSettled(m', procs[root := Proc(sz, procs[root].tf)])
  {
    var p := Proc(sz, procs[root].tf);
    StillSettled(m, m', root, procs, p);
    hide TreeBut, AllSettled;
    assert Live(m', root, p, tramp) by {
      hide Space, Pte;
      LiveProc(m, procs, root, tramp);
      HiStays(m, m', root, Hi(tramp, p.tf));
    }
    hide Live, Foreign, Space;
    OthersLive(m, m', root, 0, 0, procs, tramp);
    LiveMore(m', procs, root, p, tramp);
  }

  lemma HiStays(m: Mem, m': Mem, root: nat, hi: map<nat, nat>)
    requires HiOk(m, hi) && Foreign(m, m', root, 0, 0)
    ensures HiOk(m', hi)
  {
  }

  // ----- what it means -----

  /** Where a page can lie: at a height of the free list, among the tables of a process, at a virtual page
      of its memory, or as its trapframe. */
  datatype Place = OnList(k: nat) | TableOf(root: nat, level: nat, pre: nat) | MappedAt(root: nat, vpn: nat) | TrapOf(root: nat)

  /** Page p lies there, as the free list, the tables that walk reaches and the entries it finds have it. */
  ghost predicate Lies(m: Mem, procs: map<nat, Proc>, p: nat, at: Place)
    requires Sized(m)
  {
    match at
    case OnList(k) => k < |m.free| && m.free[k] == p
    case TableOf(r, level, pre) =>
      r in procs && level <= 2 && p != 0 && exists v: nat :: v < VSPACE && Pre(level, v) == pre && TableAt(m.tab, r, v, level) == p
    case MappedAt(r, v) => r in procs && v < PagesOf(procs[r].sz) && V(Pte(m.tab, r, v)) && Ppn(Pte(m.tab, r, v)) == p
    case TrapOf(r) => r in procs && procs[r].tf == p
  }

  /** The place that a role stands for. */
  function PlaceOf(rl: Role): Place {
    match rl
    case Free(k) => OnList(k)
    case Table(r, level, pre, _) => TableOf(r, level, pre)
    case Data(r, v, _) => MappedAt(r, v)
    case Trap(r) => TrapOf(r)
    case _ => OnList(0)
  }

  lemma PlaceIsRole(m: Mem, procs: map<nat, Proc>, tramp: nat, head: nat, lo: nat, p: nat, at: Place)
    requires Sized(m) && Tree(m.tab, m.role) && AllLive(m, procs, tramp) && FreeOk(m.tab, m.role, m.free, head, lo)
    requires p < PHYSPAGES && Lies(m, procs, p, at)
    ensures !m.role[p].Kernel? && !m.role[p].Held? && at == PlaceOf(m.role[p])
  {
    hide TreeBut, Pte, TableAt, Live, AllLive, Linked;
    match at
    case OnList(k) =>
    case TableOf(r, level, pre) =>
      LiveProc(m, procs, r, tramp);
      var v: nat :| v < VSPACE && Pre(level, v) == pre && TableAt(m.tab, r, v, level) == p;
      AtRole(m.tab, m.role, r, v, level);
    case MappedAt(r, v) =>
      LiveProc(m, procs, r, tramp);
      assert OwnPage(m, r, v);
    case TrapOf(r) =>
      LiveProc(m, procs, r, tramp);
  }

  /** Some virtual page goes through a given table. */
  lemma SomeThrough(level: nat, pre: nat) returns (v: nat)
    requires level <= 2 && pre < Pow(2 - level)
    ensures v < VSPACE && Pre(level, v) == pre
  {
    v := pre * Pow(level + 1);
  }

  lemma RoleIsPlace(m: Mem, procs: map<nat, Proc>, tramp: nat, head: nat, lo: nat, p: nat)
    requires Sized(m) && Tree(m.tab, m.role) && AllLive(m, procs, tramp) && AllSettled(m, procs)
    requires FreeOk(m.tab, m.role, m.free, head, lo) && lo <= p < PHYSPAGES
    ensures Lies(m, procs, p, PlaceOf(m.role[p]))
  {
    hide EntryOk, Pte, TableAt, Live, AllLive, Linked, Pre, Pow;
    assert Settled(m.role[p], p, procs);
    match m.role[p]
    case Table(r, level, pre, _) =>
      assert TableOk(m.tab, m.role, p);
      var v := SomeThrough(level, pre);
      RoleAt(m.tab, m.role, p, v);
    case Data(r, v, _) =>
      OwnEntry(m.tab, m.role, p);
      LiveProc(m, procs, r, tramp);
    case _ =>
  }

  /** Every page outside the kernel lies at exactly one place: once on the free list, as one table of one
      process, at one virtual page of one process, or as the trapframe of one. */
  lemma OneOwner(m: Mem, procs: map<nat, Proc>, tramp: nat, head: nat, lo: nat, p: nat)
    requires Sized(m) && Tree(m.tab, m.role) && AllLive(m, procs, tramp) && AllSettled(m, procs)
    requires FreeOk(m.tab, m.role, m.free, head, lo) && lo <= p < PHYSPAGES
    ensures exists at :: Lies(m, procs, p, at)
    ensures forall a, b :: Lies(m, procs, p, a) && Lies(m, procs, p, b) ==> a == b
  {
    hide Tree, AllLive, AllSettled, FreeOk, Lies, PlaceOf, Sized;
    RoleIsPlace(m, procs, tramp, head, lo, p);
    forall a, b | Lies(m, procs, p, a) && Lies(m, procs, p, b) ensures a == b {
      PlaceIsRole(m, procs, tramp, head, lo, p, a);
      PlaceIsRole(m, procs, tramp, head, lo, p, b);
    }
  }

  /** An entry of a process maps a page of its own memory there, its trapframe or the trampoline. */
  lemma EntryMeans(m: Mem, procs: map<nat, Proc>, tramp: nat, r: nat, v: nat)
    requires Sized(m) && AllLive(m, procs, tramp) && r in procs && v < VSPACE && V(Pte(m.tab, r, v))
    ensures var p := Ppn(Pte(m.tab, r, v));
            || Lies(m, procs, p, MappedAt(r, v))
            || (v == TRAPFRAME && p == procs[r].tf)
            || (v == TRAMPOLINE && p == tramp)
  {
    hide Pte, TableAt, Live, AllLive;
    LiveProc(m, procs, r, tramp);
    LeafBits(tramp, PTE_R + PTE_X);
    LeafBits(procs[r].tf, PTE_R + PTE_W);
  }

  /** A page of a process's memory has one entry in all page tables together. */
  lemma MappedOnce(m: Mem, procs: map<nat, Proc>, tramp: nat, r: nat, v: nat, q: nat, w: nat)
    requires Sized(m) && AllLive(m, procs, tramp) && r in procs && q in procs && v < PagesOf(procs[r].sz) && w < VSPACE
    requires V(Pte(m.tab, r, v)) && V(Pte(m.tab, q, w)) && Ppn(Pte(m.tab, r, v)) == Ppn(Pte(m.tab, q, w))
    ensures r == q && v == w
  {
    hide Pte, TableAt, Live, AllLive;
    LiveProc(m, procs, r, tramp);
    LiveProc(m, procs, q, tramp);
    assert OwnPage(m, r, v);
    assert OwnPage(m, q, w) || SharedPage(m, q, w);
  }

  /** When no process is left, every page outside the kernel is on the free list. */
  lemma AllBack(m: Mem, head: nat, lo: nat)
    requires AllSettled(m, map[]) && FreeOk(m.tab, m.role, m.free, head, lo)
    ensures forall p: nat :: lo <= p < PHYSPAGES ==> p in m.free
    ensures forall j, k :: 0 <= j < k < |m.free| ==> m.free[j] != m.free[k]
  {
    forall p: nat | lo <= p < PHYSPAGES ensures p in m.free {
      assert Settled(m.role[p], p, map[]);
    }
    forall j: nat, k: nat | j < k < |m.free| ensures m.free[j] != m.free[k] {
      assert m.role[m.free[j]] == Free(j) && m.role[m.free[k]] == Free(k);
    }
  }

  /** A write of one process cannot be seen by another. */
  lemma WriteUnseen(m: Mem, m': Mem, root: nat, dst: nat, bytes: seq<byte>, other: nat, va: nat)
    requires Wrote(m, m', root, dst, bytes) && Tree(m.tab, m.role) && other != root && IsRoot(m.role, other)
    requires Reach(m, other, va)
    ensures Reach(m', other, va) && At(m', other, va) == At(m, other, va)
  {
    hide Pte, TreeBut;
    ReachOwn(m, other, va);
  }

  /** What a copied address space can reach and what it reads there is what the original does. */
  lemma CopyReads(m: Mem, from: nat, to: nat, n: nat, va: nat)
    requires Copies(m, from, to, n) && va / PGSIZE < n
    ensures Reach(m, to, va) <==> Reach(m, from, va)
    ensures At(m, to, va) == At(m, from, va)
  {
    hide Pte;
    var a, b := Pte(m.tab, from, va / PGSIZE), Pte(m.tab, to, va / PGSIZE);
    FlagBits(Ppn(a), Flags(a));
    FlagBits(Ppn(b), Flags(b));
  }

  lemma SpawnedTrap(m: Mem, m': Mem, root: nat, tf: nat)
    requires Spawned(m, m', root, tf)
    ensures Sized(m) && tf < PHYSPAGES && m.role[tf].Free?
  {
  }

  /** Nothing that has been said of processes depends on what is in their trapframes. */
  lemma OnlyContents(m: Mem, m': Mem, procs: map<nat, Proc>, tramp: nat)
    requires AllLive(m, procs, tramp) && AllSettled(m, procs) && Sized(m') && m' == m.(data := m'.data)
    ensures AllLive(m', procs, tramp) && AllSettled(m', procs)
  {
    hide Pte;
    forall r | r in procs ensures Live(m', r, procs[r], tramp) {
      assert Live(m, r, procs[r], tramp);
      forall v: nat | v < VSPACE ensures OwnPage(m', r, v) == OwnPage(m, r, v) && SharedPage(m', r, v) == SharedPage(m, r, v) {
      }
    }
    forall x: nat | x < PHYSPAGES ensures Settled(m'.role[x], x, procs) {
      assert Settled(m.role[x], x, procs);
    }
  }

  /** The same pages hold the copied memory, whatever is in the trapframes. */
  lemma CopiesStay(m: Mem, m': Mem, from: nat, to: nat, n: nat, tf: nat)
    requires Copies(m, from, to, n) && Sized(m') && tf < PHYSPAGES && Loose(m.role[tf]) && m' == m.(data := m.data[tf := m'.data[tf]])
    ensures Copies(m', from, to, n)
  {
  }

  /** The place of the saved register a0 in a trapframe. */
  const A0: nat := 112

  lemma TablesForeign(m: Mem, m': Mem, root: nat)
    requires OnlyTables(m, m', root)
    ensures Foreign(m, m', root, 0, 0)
  {
  }

  lemma ExtendedForeign(m: Mem, m': Mem, root: nat, n0: nat, n: nat)
    requires Extended(m, m', root, n0, n)
    ensures Foreign(m, m', root, 0, 0)
  {
  }

  /** A size is far below 2^64, so a negative new size wraps to something larger than the old one. */
  lemma WrapsAround(m: Mem, root: nat, sz: nat, hi: map<nat, nat>, n: int)
    requires Space(m, root, PagesOf(sz), hi) && -0x8000_0000 <= n < 0
    ensures var newsz := (sz + n) % 0x1_0000_0000_0000_0000;
            if sz + n >= 0 then newsz == sz + n < sz else newsz >= sz
  {
  }
}
