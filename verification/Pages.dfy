/** Physical memory with the owner of every page: the free list, and what the operations on one
    address space do to the pages and maps of all of them. A page is seen as 512 entries or as 4096
    bytes; no page is ever used as both. */
module Pages {
  import opened Common
  import opened PageTable

  /** Memory at one moment, with the owner of every page. */
  datatype Mem = Mem(tab: Tab, data: seq<seq<byte>>, role: Roles, free: seq<nat>)

  // ----- the free list -----

  /** The address of the page below height k on the list; 0 at the bottom. */
  ghost function Below(free: seq<nat>, k: nat): nat
    requires k <= |free|
  {
    if k == 0 then 0 else free[k - 1] * PGSIZE
  }

  /** Exactly the pages on the list are free, and each is on it once. */
  ghost predicate Listed(role: Roles, free: seq<nat>)
    requires |role| == PHYSPAGES
  {
    && (forall k: nat :: k < |free| ==> free[k] < PHYSPAGES && role[free[k]] == Free(k))
    && (forall p: nat :: p < PHYSPAGES && role[p].Free? ==> role[p].k < |free| && free[role[p].k] == p)
  }

  /** The pages on the list are linked from head through their first words. */
  ghost predicate Linked(tab: Tab, free: seq<nat>, head: nat)
    requires Shape(tab)
  {
    && head == Below(free, |free|)
    && (forall k: nat :: k < |free| ==> free[k] < PHYSPAGES)
    && (forall k: nat {:trigger Below(free, k)} :: k < |free| ==> tab[free[k]][0] == Below(free, k))
  }

  ghost predicate FreeOk(tab: Tab, role: Roles, free: seq<nat>, head: nat, lo: nat)
    requires Shape(tab) && |role| == PHYSPAGES
  {
    && 0 < lo && Listed(role, free) && Linked(tab, free, head)
    && (forall p: nat :: p < PHYSPAGES ==> (role[p].Kernel? <==> p < lo))
  }

  ghost predicate Sized(m: Mem) {
    && Shape(m.tab) && |m.role| == PHYSPAGES && |m.data| == PHYSPAGES
    && forall p: nat :: p < PHYSPAGES ==> |m.data[p]| == PGSIZE
  }

  lemma FreeFrame(tab: Tab, role: Roles, free: seq<nat>, head: nat, lo: nat, tab': Tab, role': Roles)
    requires Shape(tab) && Shape(tab') && |role| == |role'| == PHYSPAGES && FreeOk(tab, role, free, head, lo)
    requires forall p: nat :: p < PHYSPAGES && role[p].Free? ==> role'[p] == role[p] && tab'[p] == tab[p]
    requires forall p: nat :: p < PHYSPAGES && !role[p].Free? ==> !role'[p].Free? && (role[p].Kernel? <==> role'[p].Kernel?)
    ensures FreeOk(tab', role', free, head, lo)
  {
  }

  lemma EmptyList(tab: Tab, role: Roles, free: seq<nat>, head: nat, lo: nat)
    requires Shape(tab) && |role| == PHYSPAGES && FreeOk(tab, role, free, head, lo)
    ensures head == 0 <==> free == []
  {
  }

  lemma PoolFloor(tab: Tab, role: Roles, free: seq<nat>, head: nat, lo: nat)
    requires Shape(tab) && |role| == PHYSPAGES && FreeOk(tab, role, free, head, lo)
    ensures 0 < lo
  {
  }

  lemma PoppedList(role: Roles, free: seq<nat>)
    requires |role| == PHYSPAGES && Listed(role, free) && free != [] && free[|free| - 1] < PHYSPAGES
    ensures Listed(role[free[|free| - 1] := Held], free[..|free| - 1])
    ensures forall k: nat :: k < |free| - 1 ==> free[k] != free[|free| - 1]
  {
  }

  lemma PoppedLinks(tab: Tab, free: seq<nat>, head: nat, row: seq<nat>)
    requires Shape(tab) && Linked(tab, free, head) && free != [] && |row| == NPTE
    requires forall k: nat :: k < |free| - 1 ==> free[k] != free[|free| - 1]
    ensures head == free[|free| - 1] * PGSIZE
    ensures Linked(tab[free[|free| - 1] := row], free[..|free| - 1], tab[free[|free| - 1]][0])
  {
    var top: nat := |free| - 1;
    var free' := free[..top];
    assert tab[free[top]][0] == Below(free, top) == Below(free', top);
    forall k: nat | k < top ensures tab[free[k]][0] == Below(free', k) {
      assert tab[free[k]][0] == Below(free, k);
    }
  }

  lemma Popped(tab: Tab, role: Roles, free: seq<nat>, head: nat, lo: nat, row: seq<nat>)
    requires Shape(tab) && |role| == PHYSPAGES && FreeOk(tab, role, free, head, lo) && free != [] && |row| == NPTE
    ensures var p := free[|free| - 1];
            && lo <= p < PHYSPAGES && head == p * PGSIZE && role[p].Free?
            && FreeOk(tab[p := row], role[p := Held], free[..|free| - 1], tab[p][0], lo)
  {
    var top: nat := |free| - 1;
    assert role[free[top]] == Free(top);
    PoppedList(role, free);
    PoppedLinks(tab, free, head, row);
    hide Listed, Linked;
  }

  lemma PushedList(role: Roles, free: seq<nat>, p: nat)
    requires |role| == PHYSPAGES && Listed(role, free) && p < PHYSPAGES && !role[p].Free?
    ensures Listed(role[p := Free(|free|)], free + [p])
    ensures forall k: nat :: k < |free| ==> free[k] != p
  {
  }

  lemma PushedLinks(tab: Tab, free: seq<nat>, head: nat, row: seq<nat>, p: nat)
    requires Shape(tab) && Linked(tab, free, head) && |row| == NPTE && row[0] == head && p < PHYSPAGES
    requires forall k: nat :: k < |free| ==> free[k] != p
    ensures Linked(tab[p := row], free + [p], p * PGSIZE)
  {
    var free' := free + [p];
    assert head == Below(free', |free|);
    forall k: nat | k < |free| ensures tab[free[k]][0] == Below(free', k) {
      assert tab[free[k]][0] == Below(free, k);
    }
  }

  lemma Pushed(tab: Tab, role: Roles, free: seq<nat>, head: nat, lo: nat, row: seq<nat>, p: nat)
    requires Shape(tab) && |role| == PHYSPAGES && FreeOk(tab, role, free, head, lo) && |row| == NPTE && row[0] == head
    requires p < PHYSPAGES && !role[p].Free? && !role[p].Kernel?
    ensures FreeOk(tab[p := row], role[p := Free(|free|)], free + [p], p * PGSIZE, lo)
  {
    PushedList(role, free, p);
    PushedLinks(tab, free, head, row, p);
    hide Listed, Linked;
  }

  /** A page of equal bytes, as memset leaves it. */
  function Fill(b: byte): seq<byte> { seq(PGSIZE, _ => b) }

  /** The same page as 64-bit words. */
  function FillWords(b: byte): seq<nat> { seq(NPTE, _ => b * 0x101010101010101) }

  /** What an operation on one address space leaves alone: the pages of every other owner. What that
      address space and the free list own together stays the same set. The n pages from x are set apart. */
  ghost predicate Foreign(m: Mem, m': Mem, root: nat, x: nat, n: nat) {
    && Sized(m) && Sized(m')
    && (forall p: nat :: p < PHYSPAGES && !(x <= p < x + n) && !m.role[p].Free? && !Mine(m.role[p], root) ==>
          m'.role[p] == m.role[p] && m'.tab[p] == m.tab[p] && m'.data[p] == m.data[p])
    && (forall p: nat :: p < PHYSPAGES && !(x <= p < x + n) && (m.role[p].Free? || Mine(m.role[p], root)) ==>
          m'.role[p].Free? || Mine(m'.role[p], root))
  }

  /** The address space may have got more tables; it maps what it did. */
  ghost predicate Grew(m: Mem, m': Mem, root: nat) {
    && Foreign(m, m', root, 0, 0)
    && (forall p: nat :: p < PHYSPAGES && !m.role[p].Free? ==> m'.role[p] == m.role[p] && m'.data[p] == m.data[p])
    && (forall p: nat :: p < PHYSPAGES && m.role[p].Free? && !m'.role[p].Free? ==> m'.role[p].Table?)
    && (forall v: nat :: v < VSPACE ==> Pte(m'.tab, root, v) == Pte(m.tab, root, v))
    && m'.free <= m.free
  }

  lemma GrewTwice(a: Mem, b: Mem, c: Mem, root: nat)
    requires Grew(a, b, root) && Grew(b, c, root)
    ensures Grew(a, c, root)
  {
  }

  lemma GrewRefl(m: Mem, root: nat)
    requires Sized(m)
    ensures Grew(m, m, root)
  {
  }

  /** A free page c becomes the empty table behind entry i of q. */
  lemma TookTable(m: Mem, m': Mem, q: nat, i: nat, c: nat)
    requires Sized(m) && Sized(m') && Tree(m.tab, m.role) && q < PHYSPAGES && i < NPTE
    requires m.role[q].Table? && m.role[q].level > 0 && m.tab[q][i] == 0 && IsRoot(m.role, m.role[q].root)
    requires 0 < c < PHYSPAGES && m.role[c].Free? && m'.free <= m.free
    requires m'.role == m.role[c := Table(m.role[q].root, m.role[q].level - 1, m.role[q].pre * 512 + i, q)]
    requires m'.tab == WithPte(m.tab[c := Zeros()], q, i, c * 1024 + PTE_V)
    requires m'.data == m.data[c := m'.data[c]]
    ensures m.role[q].level <= 2 && Tree(m'.tab, m'.role) && Grew(m, m', m.role[q].root)
  {
    hide EntryOk, TableOk, DataOk, Pte;
    var root := m.role[q].root;
    var tab1, role1 := m.tab[c := Zeros()], m.role[c := Held];
    LooseFrame(m.tab, m.role, tab1, role1, PHYSPAGES, 0);
    AddTable(tab1, role1, q, i, c);
    forall v: nat | v < VSPACE ensures Pte(m'.tab, root, v) == Pte(m.tab, root, v) {
      PteFrame(m.tab, m.role, tab1, root, v);
      AddTableMap(tab1, role1, q, i, c, root, v);
    }
    assert m'.role == role1[c := m'.role[c]];
  }

  lemma GrewRole(m: Mem, m': Mem, root: nat)
    requires Grew(m, m', root) && IsRoot(m.role, root)
    ensures IsRoot(m'.role, root)
  {
  }

  lemma FirstPre(tab: Tab, role: Roles, root: nat, v: nat)
    requires Tree(tab, role) && IsRoot(role, root) && v < VSPACE
    ensures root != 0 && Pre(2, v) == 0
  {
  }

  lemma LastPre(v: nat)
    ensures Pre(0, v) == v / 512
  {
  }

  /** One level of walk: a valid entry leads to the next table, an invalid one is empty and ends the walk. */
  lemma Child(tab: Tab, role: Roles, root: nat, v: nat, level: nat)
    requires Tree(tab, role) && IsRoot(role, root) && v < VSPACE && 0 < level <= 2
    requires var q := TableAt(tab, root, v, level); q != 0 && q < PHYSPAGES && role[q].Table?
    ensures var e := tab[TableAt(tab, root, v, level)][Px(level, v)];
            if V(e) then
              && Ppn(e) == TableAt(tab, root, v, level - 1) && 0 < Ppn(e) < PHYSPAGES && role[Ppn(e)].Table?
              && role[Ppn(e)] == Table(root, level - 1, Pre(level - 1, v), role[Ppn(e)].parent)
            else e == 0 && TableAt(tab, root, v, 0) == 0
  {
    hide Px, Pre;
    AtRole(tab, role, root, v, level);
    AtRole(tab, role, root, v, level - 1);
    var q := TableAt(tab, root, v, level);
    assert EntryOk(tab, role, q, Px(level, v));
    assert TableAt(tab, root, v, level - 1) == Next(tab[q][Px(level, v)]);
  }

  // ----- adding and removing mappings -----

  /** The n virtual pages from first now map the physical pages from ppn; nothing else is mapped
      differently. With own, those physical pages now belong to the address space. Otherwise only free
      pages have changed hands, to become tables. */
  ghost predicate Added(m: Mem, m': Mem, root: nat, first: nat, n: nat, ppn: nat, perm: nat, own: bool) {
    && Foreign(m, m', root, ppn, if own then n else 0) && perm < 1024
    && (forall v: nat :: v < VSPACE ==>
          Pte(m'.tab, root, v) == if first <= v < first + n then Leaf(ppn + v - first, perm) else Pte(m.tab, root, v))
    && (forall p: nat :: p < PHYSPAGES && !m.role[p].Free? ==>
          && m'.data[p] == m.data[p]
          && if own && ppn <= p < ppn + n then m'.role[p].Data? && m'.role[p] == Data(root, first + p - ppn, m'.role[p].parent)
             else m'.role[p] == m.role[p])
    && (forall p: nat :: p < PHYSPAGES && m.role[p].Free? ==> m'.role[p].Free? || m'.role[p].Table?)
    && m'.free <= m.free
  }

  lemma AddedNone(m: Mem, m': Mem, root: nat, first: nat, ppn: nat, perm: nat, own: bool)
    requires Grew(m, m', root) && perm < 1024
    ensures Added(m, m', root, first, 0, ppn, perm, own)
  {
  }

  lemma AddedMore(a: Mem, b: Mem, c: Mem, root: nat, first: nat, n: nat, ppn: nat, perm: nat, own: bool)
    requires Added(a, b, root, first, n, ppn, perm, own) && Added(b, c, root, first + n, 1, ppn + n, perm, own)
    requires own && ppn + n < PHYSPAGES ==> a.role[ppn + n].Held?
    ensures Added(a, c, root, first, n + 1, ppn, perm, own)
  {
  }

  lemma AddedNothing(a: Mem, b: Mem, c: Mem, root: nat, first: nat, n: nat, ppn: nat, perm: nat, own: bool)
    requires Added(a, b, root, first, n, ppn, perm, own) && Grew(b, c, root)
    ensures Added(a, c, root, first, n, ppn, perm, own)
  {
  }

  /** Filling one empty entry. */
  lemma AddedOne(m: Mem, m': Mem, q: nat, v: nat, c: nat, perm: nat, own: bool)
    requires Sized(m) && Sized(m') && Tree(m.tab, m.role) && q < PHYSPAGES && m.role[q].Table? && v < VSPACE
    requires m.role[q].level == 0 && m.role[q].pre == v / 512 && m.tab[q][v % 512] == 0
    requires perm < 1024 && Rwx(perm) && 0 < c < PHYSPAGES && if own then m.role[c].Held? else !U(perm)
    requires m'.tab == WithPte(m.tab, q, v % 512, Leaf(c, perm)) && m'.data == m.data && m'.free == m.free
    requires m'.role == if own then m.role[c := Data(m.role[q].root, v, q)] else m.role
    ensures Tree(m'.tab, m'.role) && Added(m, m', m.role[q].root, v, 1, c, perm, own)
  {
    hide EntryOk, TableOk, DataOk, Leaf;
    LeafBits(c, perm);
    var root := m.role[q].root;
    assert v == v / 512 * 512 + v % 512;
    if own {
      PutOwned(m.tab, m.role, q, v % 512, c, Leaf(c, perm));
    } else {
      PutShared(m.tab, m.role, q, v % 512, Leaf(c, perm));
    }
    RoleAt(m.tab, m.role, q, v);
    forall w: nat | w < VSPACE ensures Pte(m'.tab, root, w) == if w == v then Leaf(c, perm) else Pte(m.tab, root, w) {
      LeafSet(m.tab, m.role, q, v % 512, Leaf(c, perm), root, w);
    }
    hide Pte;
  }

  lemma EntryFound(m0: Mem, m: Mem, root: nat, v: nat, q: nat)
    requires Grew(m0, m, root) && v < VSPACE && q == TableAt(m.tab, root, v, 0) && 0 < q < PHYSPAGES
    ensures m.tab[q][v % 512] == Pte(m0.tab, root, v)
  {
  }

  lemma GrewHeld(m0: Mem, m: Mem, root: nat, c: nat)
    requires Grew(m0, m, root) && c < PHYSPAGES && m0.role[c].Held?
    ensures m.role[c].Held?
  {
  }

  lemma GrewThenAdded(a: Mem, b: Mem, c: Mem, root: nat, first: nat, n: nat, ppn: nat, perm: nat, own: bool)
    requires Grew(a, b, root) && Added(b, c, root, first, n, ppn, perm, own)
    requires own ==> forall p: nat :: ppn <= p < ppn + n && p < PHYSPAGES ==> a.role[p].Held?
    ensures Added(a, c, root, first, n, ppn, perm, own)
  {
  }

  lemma AddedRole(m: Mem, m': Mem, root: nat, v: nat, c: nat, perm: nat, own: bool)
    requires Added(m, m', root, v, 1, c, perm, own) && IsRoot(m.role, root) && c < PHYSPAGES
    requires own ==> m.role[c].Held?
    ensures IsRoot(m'.role, root)
  {
  }

  /** The number of pages that size bytes from va touch. */
  function Count(va: nat, size: nat): nat
    requires size > 0
  {
    (va + size - 1) / PGSIZE - va / PGSIZE + 1
  }

  ghost predicate Vacant(tab: Tab, root: nat, first: nat, n: nat)
    requires Shape(tab)
  {
    forall v: nat :: first <= v < first + n ==> Pte(tab, root, v) == 0
  }

  ghost predicate AllHeld(role: Roles, ppn: nat, n: nat) {
    ppn + n <= |role| && forall p: nat :: ppn <= p < ppn + n ==> role[p].Held?
  }

  lemma AddedRest(m: Mem, m': Mem, root: nat, first: nat, n: nat, ppn: nat, perm: nat, own: bool, count: nat)
    requires Added(m, m', root, first, n, ppn, perm, own) && Vacant(m.tab, root, first, count) && n < count
    requires first + n < VSPACE && (own ==> AllHeld(m.role, ppn, count))
    ensures Pte(m'.tab, root, first + n) == 0
    ensures own ==> ppn + n < PHYSPAGES && m.role[ppn + n].Held? && m'.role[ppn + n].Held?
  {
  }

  /** Virtual page v is mapped to a page of the address space. */
  ghost predicate OwnPage(m: Mem, root: nat, v: nat) {
    && Sized(m) && V(Pte(m.tab, root, v)) && Ppn(Pte(m.tab, root, v)) < PHYSPAGES
    && var rl := m.role[Ppn(Pte(m.tab, root, v))];
       rl.Data? && rl == Data(root, v, rl.parent)
  }

  /** Virtual page v is mapped to a page that belongs to no address space. */
  ghost predicate SharedPage(m: Mem, root: nat, v: nat) {
    && Sized(m) && V(Pte(m.tab, root, v)) && Ppn(Pte(m.tab, root, v)) < PHYSPAGES
    && Loose(m.role[Ppn(Pte(m.tab, root, v))])
  }

  /** Whether the page with role rl is mapped by the address space at one of the n virtual pages from first. */
  predicate In(rl: Role, root: nat, first: nat, n: nat) {
    rl.Data? && rl.root == root && first <= rl.vpn < first + n
  }

  /** The n virtual pages from first are no longer mapped; everything else is mapped as before. With
      doFree exactly the pages that were mapped there are now on the free list. No other page has
      changed its owner or its contents. */
  ghost predicate Removed(m: Mem, m': Mem, root: nat, first: nat, n: nat, doFree: bool) {
    && Foreign(m, m', root, 0, 0)
    && (forall v: nat :: v < VSPACE ==> Pte(m'.tab, root, v) == if first <= v < first + n then 0 else Pte(m.tab, root, v))
    && (forall p: nat :: p < PHYSPAGES ==>
          if doFree && In(m.role[p], root, first, n) then m'.role[p].Free?
          else m'.role[p] == m.role[p] && m'.data[p] == m.data[p])
    && m.free <= m'.free
  }

  lemma RemovedNone(m: Mem, root: nat, first: nat, doFree: bool)
    requires Sized(m)
    ensures Removed(m, m, root, first, 0, doFree)
  {
  }

  lemma RemovedMore(a: Mem, b: Mem, c: Mem, root: nat, first: nat, n: nat, doFree: bool)
    requires Removed(a, b, root, first, n, doFree) && Removed(b, c, root, first + n, 1, doFree)
    ensures Removed(a, c, root, first, n + 1, doFree)
  {
  }

  lemma Weaken(tab: Tab, role: Roles, q: nat, i: nat)
    requires Tree(tab, role)
    ensures TreeBut(tab, role, q, i)
  {
  }

  lemma MappedBy(tab: Tab, role: Roles, root: nat, v: nat)
    requires Tree(tab, role) && IsRoot(role, root) && v < VSPACE && V(Pte(tab, root, v))
    ensures var q := TableAt(tab, root, v, 0);
            0 < q < PHYSPAGES && role[q].Table? && role[q].level == 0 && role[q].root == root && role[q].pre == v / 512
  {
    AtRole(tab, role, root, v, 0);
  }

  lemma OwnParent(m: Mem, root: nat, v: nat)
    requires Tree(m.tab, m.role) && IsRoot(m.role, root) && v < VSPACE && OwnPage(m, root, v)
    ensures m.role[Ppn(Pte(m.tab, root, v))].parent == TableAt(m.tab, root, v, 0)
  {
    var c := Ppn(Pte(m.tab, root, v));
    hide EntryOk, TableOk, Pte;
    assert DataOk(m.tab, m.role, c);
    RoleAt(m.tab, m.role, m.role[c].parent, v);
  }

  lemma ClearedMap(tab: Tab, role: Roles, tab': Tab, root: nat, q: nat, v: nat, w: nat)
    requires Tree(tab, role) && IsRoot(role, root) && v < VSPACE && w < VSPACE && Shape(tab')
    requires q < PHYSPAGES && role[q].Table? && role[q].level == 0 && role[q].root == root && role[q].pre == v / 512
    requires forall p: nat :: p < PHYSPAGES && p != q && role[p].Table? ==> tab'[p] == tab[p]
    requires tab'[q] == tab[q][v % 512 := 0]
    ensures Pte(tab', root, w) == if w == v then 0 else Pte(tab, root, w)
  {
    hide EntryOk, TableOk, DataOk;
    AtFrame(tab, role, tab', root, w, 0);
    AtRole(tab, role, root, w, 0);
    if w / 512 == v / 512 {
      RoleAt(tab, role, q, w);
    }
  }

  /** Clearing one entry, after its page has been freed if it was the address space's own. */
  lemma RemovedOne(m: Mem, m': Mem, root: nat, q: nat, v: nat, c: nat, doFree: bool)
    requires Sized(m) && Sized(m') && Tree(m.tab, m.role) && IsRoot(m.role, root) && v < VSPACE && c < PHYSPAGES
    requires q < PHYSPAGES && m.role[q].Table? && m.role[q].level == 0
    requires m.role[q].root == root && m.role[q].pre == v / 512 && c == Ppn(Pte(m.tab, root, v))
    requires if doFree then OwnPage(m, root, v) else SharedPage(m, root, v)
    requires m'.role == if doFree then m.role[c := Free(|m.free|)] else m.role
    requires m'.tab == if doFree then WithPte(m.tab[c := m'.tab[c]], q, v % 512, 0) else WithPte(m.tab, q, v % 512, 0)
    requires m'.data == if doFree then m.data[c := m'.data[c]] else m.data
    requires m.free <= m'.free
    ensures Removed(m, m', root, v, 1, doFree)
  {
    hide EntryOk, TableOk, DataOk, Pte;
    forall w: nat | w < VSPACE ensures Pte(m'.tab, root, w) == if w == v then 0 else Pte(m.tab, root, w) {
      ClearedMap(m.tab, m.role, m'.tab, root, q, v, w);
    }
    forall p: nat | p < PHYSPAGES && In(m.role[p], root, v, 1) ensures p == c {
      OwnEntry(m.tab, m.role, p);
    }
  }

  lemma RemovedRest(m: Mem, m': Mem, root: nat, first: nat, n: nat, doFree: bool)
    requires Removed(m, m', root, first, n, doFree) && first + n < VSPACE
    requires if doFree then OwnPage(m, root, first + n) else SharedPage(m, root, first + n)
    ensures if doFree then OwnPage(m', root, first + n) else SharedPage(m', root, first + n)
  {
  }

  lemma RemovedRole(m: Mem, m': Mem, root: nat, v: nat, doFree: bool)
    requires Removed(m, m', root, v, 1, doFree) && IsRoot(m.role, root)
    ensures IsRoot(m'.role, root)
  {
  }

  // ----- giving back tables -----

  /** The address space maps nothing. */
  ghost predicate Bare(tab: Tab, role: Roles, root: nat)
    requires Shape(tab) && |role| == PHYSPAGES
  {
    forall q: nat, i: nat :: q < PHYSPAGES && i < NPTE && role[q].Table? && role[q].root == root && role[q].level == 0 ==> tab[q][i] == 0
  }

  /** Exactly the tables of the subtree of rl have become free. */
  ghost predicate Pruned(m: Mem, m': Mem, rl: Role) {
    && rl.Table? && rl.level <= 2 && Sized(m) && Sized(m') && m.free <= m'.free
    && forall x: nat :: x < PHYSPAGES ==>
         if Under(m.role[x], rl.root, rl.level, rl.pre) then m'.role[x].Free?
         else m'.role[x] == m.role[x] && m'.tab[x] == m.tab[x] && m'.data[x] == m.data[x]
  }

  /** Exactly the tables of the first n children of table p have become free. */
  ghost predicate PrunedKids(m: Mem, m': Mem, p: nat, n: nat) {
    && Sized(m) && Sized(m') && m.free <= m'.free && p < PHYSPAGES && m.role[p].Table? && m.role[p].level <= 2 && n <= NPTE
    && (forall x: nat :: x < PHYSPAGES ==>
          if UnderKids(m.role[x], m.role[p].root, m.role[p].level, m.role[p].pre, n) then m'.role[x].Free?
          else m'.role[x] == m.role[x] && m'.data[x] == m.data[x] && (x != p ==> m'.tab[x] == m.tab[x]))
    && forall i: nat :: i < NPTE ==> m'.tab[p][i] == if i < n then 0 else m.tab[p][i]
  }

  lemma PrunedNone(m: Mem, p: nat)
    requires Sized(m) && p < PHYSPAGES && m.role[p].Table? && m.role[p].level <= 2
    ensures PrunedKids(m, m, p, 0)
  {
  }

  lemma Subtable(m: Mem, p: nat, i: nat)
    requires Sized(m) && Tree(m.tab, m.role) && p < PHYSPAGES && m.role[p].Table? && i < NPTE && Bare(m.tab, m.role, m.role[p].root)
    ensures var e := m.tab[p][i];
            if V(e) then
              && !Rwx(e) && 0 < m.role[p].level && Ppn(e) < PHYSPAGES
              && m.role[Ppn(e)] == Table(m.role[p].root, m.role[p].level - 1, m.role[p].pre * 512 + i, p)
            else e == 0
  {
    assert EntryOk(m.tab, m.role, p, i);
    FlagBits(Ppn(m.tab[p][i]), Flags(m.tab[p][i]));
  }

  lemma PrunedTop(m: Mem, m': Mem, p: nat, i: nat, c: nat)
    requires Sized(m) && p < PHYSPAGES && c < PHYSPAGES && i < NPTE && m.role[p].Table? && 0 < m.role[p].level <= 2
    requires m.role[c] == Table(m.role[p].root, m.role[p].level - 1, m.role[p].pre * 512 + i, p) && Pruned(m, m', m.role[c])
    ensures m'.role[p] == m.role[p] && m'.tab[p] == m.tab[p] && m'.role[c].Free? && m.role[c].pre % 512 == i
  {
  }

  lemma KidPruned(m0: Mem, m: Mem, m1: Mem, m2: Mem, p: nat, i: nat)
    requires PrunedKids(m0, m, p, i) && i < NPTE && 0 < m0.role[p].level && m.role[p] == m0.role[p]
    requires Pruned(m, m1, Table(m.role[p].root, m.role[p].level - 1, m.role[p].pre * 512 + i, p))
    requires m1.tab[p] == m.tab[p]
    requires m2 == m1.(tab := WithPte(m1.tab, p, i, 0))
    ensures PrunedKids(m0, m2, p, i + 1)
  {
    hide Under, UnderKids;
    var rl := m0.role[p];
    forall x: nat | x < PHYSPAGES
      ensures if UnderKids(m0.role[x], rl.root, rl.level, rl.pre, i + 1) then m2.role[x].Free?
              else m2.role[x] == m0.role[x] && m2.data[x] == m0.data[x] && (x != p ==> m2.tab[x] == m0.tab[x])
    {
      KidsNext(m0.role[x], rl.root, rl.level, rl.pre, i);
      FreeIsNotUnder(m.role[x], rl.root, rl.level - 1, rl.pre * 512 + i);
    }
  }

  lemma FreeIsNotUnder(rl: Role, root: nat, level: nat, pre: nat)
    requires level <= 2
    ensures rl.Free? ==> !Under(rl, root, level, pre)
  {
  }

  lemma KidEmpty(m0: Mem, m: Mem, p: nat, i: nat)
    requires PrunedKids(m0, m, p, i) && i < NPTE && m.role[p] == m0.role[p] && Tree(m.tab, m.role) && m.tab[p][i] == 0
    ensures PrunedKids(m0, m, p, i + 1)
  {
    hide Under, UnderKids, TreeBut;
    var rl := m0.role[p];
    forall x: nat | x < PHYSPAGES
      ensures if UnderKids(m0.role[x], rl.root, rl.level, rl.pre, i + 1) then m.role[x].Free?
              else m.role[x] == m0.role[x] && m.data[x] == m0.data[x] && (x != p ==> m.tab[x] == m0.tab[x])
    {
      if rl.level == 0 {
        NoKids(m0.role[x], rl.root, rl.pre, i);
        NoKids(m0.role[x], rl.root, rl.pre, i + 1);
      } else {
        KidsNext(m0.role[x], rl.root, rl.level, rl.pre, i);
        if Under(m.role[x], rl.root, rl.level - 1, rl.pre * 512 + i) {
          KidEntry(m.tab, m.role, p, i, x);
          assert false;
        }
      }
    }
  }

  lemma NoKids(rl: Role, root: nat, pre: nat, n: nat)
    ensures !UnderKids(rl, root, 0, pre, n)
  {
  }

  lemma KidsGone(m0: Mem, m: Mem, p: nat)
    requires PrunedKids(m0, m, p, NPTE)
    ensures forall i :: 0 <= i < NPTE ==> m.tab[p][i] == 0
  {
  }

  lemma AllPruned(m0: Mem, m: Mem, m': Mem, p: nat)
    requires PrunedKids(m0, m, p, NPTE) && Tree(m0.tab, m0.role) && m.role[p] == m0.role[p] && Sized(m')
    requires m'.role == m.role[p := m'.role[p]] && m'.role[p].Free? && m.free <= m'.free
    requires m'.tab == m.tab[p := m'.tab[p]] && m'.data == m.data[p := m'.data[p]]
    requires Bare(m.tab, m.role, m0.role[p].root)
    ensures Pruned(m0, m', m0.role[p]) && Bare(m'.tab, m'.role, m0.role[p].root)
  {
    hide TreeBut;
    var rl := m0.role[p];
    forall x: nat | x < PHYSPAGES && Under(m0.role[x], rl.root, rl.level, rl.pre)
      ensures x == p || UnderKids(m0.role[x], rl.root, rl.level, rl.pre, NPTE)
    {
      if m0.role[x].level == rl.level {
        SameTable(m0.tab, m0.role, p, x);
      }
    }
  }
}
