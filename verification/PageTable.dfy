/** Sv39 page tables as they lie in physical pages: what walk finds, who owns each page,
    and how every elementary change of an entry or of a page's owner acts on both. */
module PageTable {
  import opened Common

  const PGSIZE: nat := 4096
  const NPTE: nat := 512

  /** Physical page numbers lie below PHYSTOP / PGSIZE. */
  const PHYSPAGES: nat := 0x88000

  /** Virtual page numbers: the three levels reach 2^27 pages, of which MAXVA admits half. */
  const VSPACE: nat := 0x8000000
  const VPNS: nat := 0x4000000

  // ----- page-table entries -----

  const PTE_V: nat := 1
  const PTE_R: nat := 2
  const PTE_W: nat := 4
  const PTE_X: nat := 8
  const PTE_U: nat := 16

  function Pa2Pte(pa: nat): nat {
    pa / 4096 * 1024
  }

  function Pte2Pa(pte: nat): nat {
    pte / 1024 * 4096
  }

  function Flags(pte: nat): nat {
    pte % 1024
  }

  /** A leaf entry: the page number, and the permissions with the valid bit or-ed in. */
  function Leaf(ppn: nat, perm: nat): nat
    requires perm < 1024
  {
    Pa2Pte(ppn * 4096) + (if perm % 2 == 1 then perm else perm + 1)
  }

  predicate V(pte: nat) { pte % 2 == 1 }

  predicate U(pte: nat) { pte / 16 % 2 == 1 }

  /** Some of R, W, X is set, so the entry is a leaf. */
  predicate Rwx(pte: nat) { pte / 2 % 8 != 0 }

  function Ppn(pte: nat): nat { pte / 1024 }

  lemma FlagBits(n: nat, f: nat)
    requires f < 1024
    ensures var pte := n * 1024 + f;
            Ppn(pte) == n && Flags(pte) == f && V(pte) == V(f) && U(pte) == U(f) && Rwx(pte) == Rwx(f)
  {
    var pte := n * 1024 + f;
    DivSum(1024, n, f);
    DivSum(2, 512 * n, f);
    DivSum(8, 64 * n, f / 2);
    DivSum(16, 64 * n, f);
    DivSum(2, 32 * n, f / 16);
  }

  lemma LeafBits(ppn: nat, perm: nat)
    requires perm < 1024
    ensures var pte := Leaf(ppn, perm);
            Ppn(pte) == ppn && V(pte) && Flags(pte) / 2 == perm / 2 && U(pte) == U(perm) && Rwx(pte) == Rwx(perm)
  {
    var f := if perm % 2 == 1 then perm else perm + 1;
    assert Leaf(ppn, perm) == ppn * 1024 + f;
    FlagBits(ppn, f);
    assert f / 2 == perm / 2;
    assert f / 16 == f / 2 / 8 && perm / 16 == perm / 2 / 8;
    hide *;
  }

  /** Encoding and decoding an entry loses nothing of an aligned address and its flags. */
  lemma PteRoundTrip(pa: nat, perm: nat)
    requires pa % PGSIZE == 0 && perm < 1024
    ensures var pte := Leaf(pa / PGSIZE, perm); Pte2Pa(pte) == pa && V(pte) && Flags(pte) / 2 == perm / 2
  {
    LeafBits(pa / PGSIZE, perm);
    hide Leaf;
  }

  // ----- indices -----

  function Pow(level: nat): nat {
    if level == 0 then 1 else if level == 1 then 512 else if level == 2 then 0x40000 else 0x8000000
  }

  /** PX: the index of virtual page v in its table of the given level. */
  function Px(level: nat, v: nat): (i: nat)
    ensures i < NPTE
  {
    v / Pow(level) % 512
  }

  /** The part of v above that index: which table of the level v goes through. */
  function Pre(level: nat, v: nat): nat {
    v / Pow(level + 1)
  }

  lemma PreStep(level: nat, v: nat)
    requires 1 <= level <= 2
    ensures Pre(level - 1, v) == Pre(level, v) * 512 + Px(level, v)
    ensures Pre(level, v) == Pre(level - 1, v) / 512 && Px(level, v) == Pre(level - 1, v) % 512
  {
  }

  // ----- walking -----

  type Tab = seq<seq<nat>>

  predicate Shape(tab: Tab) {
    |tab| == PHYSPAGES && forall p :: 0 <= p < PHYSPAGES ==> |tab[p]| == NPTE
  }

  function Next(pte: nat): nat {
    if V(pte) then Ppn(pte) else 0
  }

  /** The page that holds the table of the given level for v; 0 if there is none. */
  function TableAt(tab: Tab, root: nat, v: nat, level: nat): nat
    requires Shape(tab) && level <= 2
    decreases 2 - level
  {
    if level == 2 then root
    else
      var q := TableAt(tab, root, v, level + 1);
      if q == 0 || q >= PHYSPAGES then 0 else Next(tab[q][Px(level + 1, v)])
  }

  /** The entry for v; 0 if a table is missing on the way. This is the flat map. */
  function Pte(tab: Tab, root: nat, v: nat): nat
    requires Shape(tab)
  {
    var q := TableAt(tab, root, v, 0);
    if q == 0 || q >= PHYSPAGES then 0 else tab[q][v % 512]
  }

  // ----- who owns a page -----

  /** A page is part of the kernel image, on the free list (at height k), in the hands of kernel code,
      the trapframe of the process with the given page table, a table or a mapped page of an address space.
      Tables and mapped pages name the table page that refers to them. */
  datatype Role =
    | Kernel
    | Free(k: nat)
    | Held
    | Trap(of: nat)
    | Table(root: nat, level: nat, pre: nat, parent: nat)
    | Data(root: nat, vpn: nat, parent: nat)

  type Roles = seq<Role>

  predicate Loose(rl: Role) { !rl.Table? && !rl.Data? }

  predicate Mine(rl: Role, root: nat) { !Loose(rl) && rl.root == root }

  predicate IsRoot(role: Roles, root: nat) {
    root < |role| && role[root] == Table(root, 2, 0, root)
  }

  ghost predicate EntryOk(tab: Tab, role: Roles, p: nat, i: nat)
    requires Shape(tab) && |role| == PHYSPAGES && p < PHYSPAGES && role[p].Table? && i < NPTE
  {
    var e, rl := tab[p][i], role[p];
    && (!V(e) ==> e == 0)
    && (V(e) && rl.level > 0 ==> e % 1024 == PTE_V && Ppn(e) < PHYSPAGES && role[Ppn(e)] == Table(rl.root, rl.level - 1, rl.pre * 512 + i, p))
    && (V(e) && rl.level == 0 ==> Rwx(e) && Ppn(e) < PHYSPAGES && (role[Ppn(e)] == Data(rl.root, rl.pre * 512 + i, p) || !U(e)))
  }

  ghost predicate TableOk(tab: Tab, role: Roles, p: nat)
    requires Shape(tab) && |role| == PHYSPAGES && p < PHYSPAGES && role[p].Table?
  {
    var rl := role[p];
    && rl.level <= 2 && rl.pre < Pow(2 - rl.level)
    && (rl.level == 2 ==> rl == Table(p, 2, 0, p))
    && (rl.level < 2 ==>
          && rl.parent < PHYSPAGES && role[rl.parent].Table?
          && role[rl.parent] == Table(rl.root, rl.level + 1, rl.pre / 512, role[rl.parent].parent)
          && tab[rl.parent][rl.pre % 512] == p * 1024 + PTE_V)
  }

  ghost predicate DataOk(tab: Tab, role: Roles, p: nat)
    requires Shape(tab) && |role| == PHYSPAGES && p < PHYSPAGES && role[p].Data?
  {
    var rl := role[p];
    && rl.parent < PHYSPAGES && role[rl.parent].Table? && rl.vpn < VSPACE
    && role[rl.parent] == Table(rl.root, 0, rl.vpn / 512, role[rl.parent].parent)
    && V(tab[rl.parent][rl.vpn % 512]) && Ppn(tab[rl.parent][rl.vpn % 512]) == p
  }

  /** All trees are in order, except that nothing is asked of entry hi of page hq. */
  ghost predicate TreeBut(tab: Tab, role: Roles, hq: nat, hi: nat) {
    && Shape(tab) && |role| == PHYSPAGES && Loose(role[0])
    && (forall p: nat, i: nat :: p < PHYSPAGES && i < NPTE && role[p].Table? && !(p == hq && i == hi) ==> EntryOk(tab, role, p, i))
    && (forall p: nat :: p < PHYSPAGES && role[p].Table? ==> TableOk(tab, role, p))
    && (forall p: nat :: p < PHYSPAGES && role[p].Data? ==> DataOk(tab, role, p))
  }

  ghost predicate Tree(tab: Tab, role: Roles) {
    TreeBut(tab, role, PHYSPAGES, 0)
  }

  /** Every page that walk reaches is a table of that tree. */
  lemma {:induction false} AtRole(tab: Tab, role: Roles, root: nat, v: nat, level: nat)
    requires Tree(tab, role) && IsRoot(role, root) && v < VSPACE && level <= 2
    ensures var q := TableAt(tab, root, v, level);
            q == 0 || (q < PHYSPAGES && role[q].Table? && role[q] == Table(root, level, Pre(level, v), role[q].parent))
    decreases 2 - level
  {
    if level < 2 {
      AtRole(tab, role, root, v, level + 1);
      var q := TableAt(tab, root, v, level + 1);
      if q != 0 {
        assert EntryOk(tab, role, q, Px(level + 1, v));
        PreStep(level + 1, v);
      }
    }
  }

  /** Every table of a tree is the one that walk reaches: there is one table for each prefix. */
  lemma {:induction false} RoleAt(tab: Tab, role: Roles, q: nat, v: nat)
    requires Tree(tab, role) && q < PHYSPAGES && role[q].Table? && v < VSPACE
    requires role[q].pre == Pre(role[q].level, v)
    ensures role[q].level <= 2 && TableAt(tab, role[q].root, v, role[q].level) == q && q != 0 && IsRoot(role, role[q].root)
    decreases 2 - role[q].level
  {
    hide Px, Pre, Pow, EntryOk;
    assert TableOk(tab, role, q);
    if role[q].level < 2 {
      FlagBits(q, PTE_V);
      PreStep(role[q].level + 1, v);
      RoleAt(tab, role, role[q].parent, v);
      assert Px(role[q].level + 1, v) == role[q].pre % 512;
    }
  }

  /** The entry for the virtual page that a page of an address space names maps that page. */
  lemma OwnEntry(tab: Tab, role: Roles, p: nat)
    requires Tree(tab, role) && p < PHYSPAGES && role[p].Data?
    ensures IsRoot(role, role[p].root) && role[p].vpn < VSPACE
    ensures var e := Pte(tab, role[p].root, role[p].vpn); V(e) && Ppn(e) == p
  {
    hide EntryOk, TableOk;
    assert DataOk(tab, role, p);
    RoleAt(tab, role, role[p].parent, role[p].vpn);
  }

  // ----- elementary changes -----

  /** A tree that keeps its tables keeps its map. */
  lemma {:induction false} AtFrame(tab: Tab, role: Roles, tab': Tab, root: nat, v: nat, level: nat)
    requires Tree(tab, role) && IsRoot(role, root) && v < VSPACE && Shape(tab') && level <= 2
    requires forall p: nat :: p < PHYSPAGES && role[p].Table? && role[p].root == root && role[p].level > level ==> tab'[p] == tab[p]
    ensures TableAt(tab', root, v, level) == TableAt(tab, root, v, level)
    decreases 2 - level
  {
    hide Px, Pre;
    if level < 2 {
      AtFrame(tab, role, tab', root, v, level + 1);
      AtRole(tab, role, root, v, level + 1);
    }
  }

  lemma PteFrame(tab: Tab, role: Roles, tab': Tab, root: nat, v: nat)
    requires Tree(tab, role) && IsRoot(role, root) && v < VSPACE && Shape(tab')
    requires forall p: nat :: p < PHYSPAGES && role[p].Table? && role[p].root == root ==> tab'[p] == tab[p]
    ensures Pte(tab', root, v) == Pte(tab, root, v)
  {
    AtFrame(tab, role, tab', root, v, 0);
    AtRole(tab, role, root, v, 0);
  }

  /** Pages that belong to no address space may change hands and contents freely. */
  lemma LooseFrame(tab: Tab, role: Roles, tab': Tab, role': Roles, hq: nat, hi: nat)
    requires TreeBut(tab, role, hq, hi) && Shape(tab') && |role'| == PHYSPAGES
    requires forall p: nat :: p < PHYSPAGES && !Loose(role[p]) ==> role'[p] == role[p] && (role[p].Table? ==> tab'[p] == tab[p])
    requires forall p: nat :: p < PHYSPAGES && Loose(role[p]) ==> Loose(role'[p])
    ensures TreeBut(tab', role', hq, hi)
  {
    forall p: nat, i: nat | p < PHYSPAGES && i < NPTE && role'[p].Table? && !(p == hq && i == hi) ensures EntryOk(tab', role', p, i) {
      assert EntryOk(tab, role, p, i);
    }
    forall p: nat | p < PHYSPAGES && role'[p].Table? ensures TableOk(tab', role', p) {
      assert TableOk(tab, role, p);
    }
    forall p: nat | p < PHYSPAGES && role'[p].Data? ensures DataOk(tab', role', p) {
      assert DataOk(tab, role, p);
    }
  }

  function WithPte(tab: Tab, q: nat, i: nat, e: nat): (tab': Tab)
    requires Shape(tab) && q < PHYSPAGES && i < NPTE
    ensures Shape(tab')
  {
    var row: seq<nat> := tab[q][i := e];
    tab[q := row]
  }

  /** Writing a last-level entry changes the map at one virtual page of one address space. */
  lemma LeafSet(tab: Tab, role: Roles, q: nat, i: nat, e: nat, root: nat, v: nat)
    requires Tree(tab, role) && q < PHYSPAGES && role[q].Table? && role[q].level == 0 && i < NPTE
    requires IsRoot(role, root) && v < VSPACE
    ensures Pte(WithPte(tab, q, i, e), root, v)
         == if root == role[q].root && v == role[q].pre * 512 + i then e else Pte(tab, root, v)
  {
    hide EntryOk, TableOk, DataOk;
    AtFrame(tab, role, WithPte(tab, q, i, e), root, v, 0);
    AtRole(tab, role, root, v, 0);
    if root == role[q].root && v / 512 == role[q].pre {
      RoleAt(tab, role, q, v);
    }
  }

  /** Page c becomes the mapped page of an entry that was empty. */
  lemma PutOwned(tab: Tab, role: Roles, q: nat, i: nat, c: nat, e: nat)
    requires Tree(tab, role) && q < PHYSPAGES && role[q].Table? && role[q].level == 0 && i < NPTE && tab[q][i] == 0
    requires 0 < c < PHYSPAGES && Loose(role[c]) && V(e) && Ppn(e) == c && Rwx(e)
    ensures Tree(WithPte(tab, q, i, e), role[c := Data(role[q].root, role[q].pre * 512 + i, q)])
  {
    var tab', role' := WithPte(tab, q, i, e), role[c := Data(role[q].root, role[q].pre * 512 + i, q)];
    assert TableOk(tab, role, q);
    forall p: nat, k: nat | p < PHYSPAGES && k < NPTE && role'[p].Table? ensures EntryOk(tab', role', p, k) {
      assert EntryOk(tab, role, p, k);
    }
    forall p: nat | p < PHYSPAGES && role'[p].Table? ensures TableOk(tab', role', p) {
      assert TableOk(tab, role, p);
    }
    forall p: nat | p < PHYSPAGES && role'[p].Data? ensures DataOk(tab', role', p) {
      if p != c {
        assert DataOk(tab, role, p);
      }
    }
  }

  /** An entry that was empty gets a mapping that user code cannot use. */
  lemma PutShared(tab: Tab, role: Roles, q: nat, i: nat, e: nat)
    requires Tree(tab, role) && q < PHYSPAGES && role[q].Table? && role[q].level == 0 && i < NPTE && tab[q][i] == 0
    requires V(e) && Ppn(e) < PHYSPAGES && Rwx(e) && !U(e)
    ensures Tree(WithPte(tab, q, i, e), role)
  {
    var tab' := WithPte(tab, q, i, e);
    forall p: nat, k: nat | p < PHYSPAGES && k < NPTE && role[p].Table? ensures EntryOk(tab', role, p, k) {
      assert EntryOk(tab, role, p, k);
    }
    forall p: nat | p < PHYSPAGES && role[p].Table? ensures TableOk(tab', role, p) {
      assert TableOk(tab, role, p);
    }
    forall p: nat | p < PHYSPAGES && role[p].Data? ensures DataOk(tab', role, p) {
      assert DataOk(tab, role, p);
    }
  }

  /** A mapped page is taken away while its entry is still in place. */
  lemma TakeData(tab: Tab, role: Roles, c: nat)
    requires Tree(tab, role) && c < PHYSPAGES && role[c].Data?
    ensures TreeBut(tab, role[c := Held], role[c].parent, role[c].vpn % 512)
  {
    var role' := role[c := Held];
    var q, i := role[c].parent, role[c].vpn % 512;
    assert DataOk(tab, role, c);
    forall p: nat, k: nat | p < PHYSPAGES && k < NPTE && role'[p].Table? && !(p == q && k == i) ensures EntryOk(tab, role', p, k) {
      assert EntryOk(tab, role, p, k);
    }
    forall p: nat | p < PHYSPAGES && role'[p].Table? ensures TableOk(tab, role', p) {
      assert TableOk(tab, role, p);
    }
    forall p: nat | p < PHYSPAGES && role'[p].Data? ensures DataOk(tab, role', p) {
      assert DataOk(tab, role, p);
    }
  }

  /** An entry whose page is nobody's mapped page or table any more is cleared. */
  lemma ClearEntry(tab: Tab, role: Roles, q: nat, i: nat)
    requires TreeBut(tab, role, q, i) && q < PHYSPAGES && role[q].Table? && i < NPTE
    requires Ppn(tab[q][i]) < PHYSPAGES && Loose(role[Ppn(tab[q][i])])
    ensures Tree(WithPte(tab, q, i, 0), role)
  {
    var tab' := WithPte(tab, q, i, 0);
    forall p: nat, k: nat | p < PHYSPAGES && k < NPTE && role[p].Table? ensures EntryOk(tab', role, p, k) {
      if p == q && k == i {
      } else {
        assert EntryOk(tab, role, p, k);
      }
    }
    forall p: nat | p < PHYSPAGES && role[p].Table? ensures TableOk(tab', role, p) {
      assert TableOk(tab, role, p);
      FlagBits(p, PTE_V);
    }
    forall p: nat | p < PHYSPAGES && role[p].Data? ensures DataOk(tab', role, p) {
      assert DataOk(tab, role, p);
    }
  }

  function Zeros(): seq<nat> { seq(512, _ => 0) }

  /** A zeroed page becomes the table behind an entry that was empty. */
  lemma AddTable(tab: Tab, role: Roles, q: nat, i: nat, c: nat)
    requires Tree(tab, role) && q < PHYSPAGES && role[q].Table? && role[q].level > 0 && i < NPTE && tab[q][i] == 0
    requires 0 < c < PHYSPAGES && Loose(role[c]) && tab[c] == Zeros()
    ensures role[q].level <= 2
    ensures Tree(WithPte(tab, q, i, c * 1024 + PTE_V), role[c := Table(role[q].root, role[q].level - 1, role[q].pre * 512 + i, q)])
  {
    hide Px, Pre, EntryOk;
    var e := c * 1024 + PTE_V;
    var tab', role' := WithPte(tab, q, i, e), role[c := Table(role[q].root, role[q].level - 1, role[q].pre * 512 + i, q)];
    assert TableOk(tab, role, q);
    AddTableEntries(tab, role, q, i, c);
    forall p: nat | p < PHYSPAGES && role'[p].Table? ensures TableOk(tab', role', p) {
      if p != c {
        assert TableOk(tab, role, p);
      }
    }
    forall p: nat | p < PHYSPAGES && role'[p].Data? ensures DataOk(tab', role', p) {
      assert DataOk(tab, role, p);
    }
  }

  lemma AddTableEntries(tab: Tab, role: Roles, q: nat, i: nat, c: nat)
    requires Tree(tab, role) && q < PHYSPAGES && role[q].Table? && 0 < role[q].level && i < NPTE
    requires 0 < c < PHYSPAGES && Loose(role[c]) && tab[c] == Zeros()
    ensures var tab', role' := WithPte(tab, q, i, c * 1024 + PTE_V), role[c := Table(role[q].root, role[q].level - 1, role[q].pre * 512 + i, q)];
            forall p: nat, k: nat :: p < PHYSPAGES && k < NPTE && role'[p].Table? ==> EntryOk(tab', role', p, k)
  {
    hide TableOk, DataOk;
    var tab', role' := WithPte(tab, q, i, c * 1024 + PTE_V), role[c := Table(role[q].root, role[q].level - 1, role[q].pre * 512 + i, q)];
    FlagBits(c, PTE_V);
    forall p: nat, k: nat | p < PHYSPAGES && k < NPTE && role'[p].Table? ensures EntryOk(tab', role', p, k) {
      if p != c {
        assert EntryOk(tab, role, p, k);
      }
    }
  }

  /** Adding an empty table leaves every map as it was. */
  lemma AddTableMap(tab: Tab, role: Roles, q: nat, i: nat, c: nat, root: nat, v: nat)
    requires Tree(tab, role) && q < PHYSPAGES && role[q].Table? && 0 < role[q].level <= 2 && i < NPTE && tab[q][i] == 0
    requires 0 < c < PHYSPAGES && Loose(role[c]) && tab[c] == Zeros()
    requires IsRoot(role, root) && v < VSPACE
    ensures Pte(WithPte(tab, q, i, c * 1024 + PTE_V), root, v) == Pte(tab, root, v)
  {
    hide EntryOk, TableOk, DataOk;
    var level := role[q].level;
    var tab' := WithPte(tab, q, i, c * 1024 + PTE_V);
    AtFrame(tab, role, tab', root, v, level);
    AtRole(tab, role, root, v, 0);
    if TableAt(tab, root, v, level) != q || Px(level, v) != i {
      OtherPath(tab, role, tab', q, i, root, v, 0);
    } else {
      FlagBits(c, PTE_V);
      assert TableAt(tab', root, v, level - 1) == c;
      ThroughEmpty(tab, tab', root, v, level, c);
    }
  }

  lemma ThroughEmpty(tab: Tab, tab': Tab, root: nat, v: nat, level: nat, c: nat)
    requires Shape(tab) && Shape(tab') && 0 < level <= 2 && 0 < c < PHYSPAGES
    requires TableAt(tab, root, v, level - 1) == 0 && TableAt(tab', root, v, level - 1) == c && tab'[c] == Zeros()
    ensures Pte(tab, root, v) == 0 == Pte(tab', root, v)
  {
  }

  /** A walk that does not read the changed entry ends as before. */
  lemma {:induction false} OtherPath(tab: Tab, role: Roles, tab': Tab, q: nat, i: nat, root: nat, v: nat, k: nat)
    requires Tree(tab, role) && q < PHYSPAGES && role[q].Table? && role[q].level <= 2 && k < role[q].level && i < NPTE
    requires IsRoot(role, root) && v < VSPACE && Shape(tab')
    requires forall p: nat, j: nat :: p < PHYSPAGES && j < NPTE && !(p == q && j == i) && role[p].Table? ==> tab'[p][j] == tab[p][j]
    requires TableAt(tab, root, v, role[q].level) != q || Px(role[q].level, v) != i
    ensures TableAt(tab', root, v, k) == TableAt(tab, root, v, k)
    decreases 2 - k
  {
    hide Px, Pre;
    if k + 1 < role[q].level {
      OtherPath(tab, role, tab', q, i, root, v, k + 1);
    } else {
      AtFrame(tab, role, tab', root, v, k + 1);
    }
    AtRole(tab, role, root, v, k + 1);
  }

  /** A zeroed page becomes the root of a new, empty tree. */
  lemma AddRoot(tab: Tab, role: Roles, c: nat)
    requires Tree(tab, role) && 0 < c < PHYSPAGES && Loose(role[c]) && tab[c] == Zeros()
    ensures Tree(tab, role[c := Table(c, 2, 0, c)])
    ensures forall v: nat :: v < VSPACE ==> Pte(tab, c, v) == 0
  {
    var role' := role[c := Table(c, 2, 0, c)];
    forall p: nat, k: nat | p < PHYSPAGES && k < NPTE && role'[p].Table? ensures EntryOk(tab, role', p, k) {
      if p != c {
        assert EntryOk(tab, role, p, k);
      }
    }
    forall p: nat | p < PHYSPAGES && role'[p].Table? ensures TableOk(tab, role', p) {
      if p != c {
        assert TableOk(tab, role, p);
      }
    }
    forall p: nat | p < PHYSPAGES && role'[p].Data? ensures DataOk(tab, role', p) {
      assert DataOk(tab, role, p);
    }
    forall v: nat | v < VSPACE ensures Pte(tab, c, v) == 0 {
      assert TableAt(tab, c, v, 1) == 0;
    }
  }

  /** An empty table is given up while the entry that names it is still in place. */
  lemma DropTable(tab: Tab, role: Roles, c: nat)
    requires Tree(tab, role) && c < PHYSPAGES && role[c].Table? && forall i :: 0 <= i < NPTE ==> tab[c][i] == 0
    ensures TreeBut(tab, role[c := Held], role[c].parent, role[c].pre % 512)
    ensures role[c].level == 2 ==> Tree(tab, role[c := Held])
  {
    hide Px, Pre;
    var role' := role[c := Held];
    var q, i := role[c].parent, role[c].pre % 512;
    assert TableOk(tab, role, c);
    forall p: nat, k: nat | p < PHYSPAGES && k < NPTE && role'[p].Table? && !(p == q && k == i && role[c].level < 2)
      ensures EntryOk(tab, role', p, k)
    {
      assert EntryOk(tab, role, p, k);
    }
    forall p: nat | p < PHYSPAGES && role'[p].Table? ensures TableOk(tab, role', p) {
      assert TableOk(tab, role, p);
    }
    forall p: nat | p < PHYSPAGES && role'[p].Data? ensures DataOk(tab, role', p) {
      assert DataOk(tab, role, p);
    }
  }

  // ----- subtrees -----

  /** The part of the prefix of a table that its ancestor of the given level has. */
  function Above(rl: Role, level: nat): nat
    requires rl.Table? && rl.level <= level <= 2
  {
    rl.pre / Pow(level - rl.level)
  }

  /** A table in the subtree of the table with the given level and prefix. */
  predicate Under(rl: Role, root: nat, level: nat, pre: nat)
    requires level <= 2
  {
    rl.Table? && rl.root == root && rl.level <= level && Above(rl, level) == pre
  }

  /** A table in the subtree of one of the first n children. */
  predicate UnderKids(rl: Role, root: nat, level: nat, pre: nat, n: nat)
    requires level <= 2
  {
    rl.Table? && rl.root == root && rl.level < level && Above(rl, level) == pre && Above(rl, level - 1) % 512 < n
  }

  lemma KidsNext(rl: Role, root: nat, level: nat, pre: nat, n: nat)
    requires 1 <= level <= 2 && n < NPTE
    ensures UnderKids(rl, root, level, pre, n + 1) <==> UnderKids(rl, root, level, pre, n) || Under(rl, root, level - 1, pre * 512 + n)
  {
    if rl.Table? && rl.root == root && rl.level < level {
      assert Above(rl, level) == Above(rl, level - 1) / 512;
    }
  }

  /** No table lies behind an empty entry. */
  lemma KidEntry(tab: Tab, role: Roles, p: nat, i: nat, x: nat)
    requires Tree(tab, role) && p < PHYSPAGES && role[p].Table? && 1 <= role[p].level <= 2 && i < NPTE && x < PHYSPAGES
    requires Under(role[x], role[p].root, role[p].level - 1, role[p].pre * 512 + i)
    ensures tab[p][i] != 0
  {
  }

  /** A table is determined by its tree, its level and its prefix. */
  lemma SameTable(tab: Tab, role: Roles, p: nat, x: nat)
    requires Tree(tab, role) && p < PHYSPAGES && x < PHYSPAGES && role[p].Table? && role[x].Table?
    requires role[p].root == role[x].root && role[p].level == role[x].level && role[p].pre == role[x].pre
    ensures p == x
  {
  }

}
