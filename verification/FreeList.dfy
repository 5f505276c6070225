/** The heap's free blocks: a list in address order that closes on itself, and the blocks that
    share out the memory obtained so far. Addresses and sizes count headers. */
module FreeList {
  type Words = map<nat, nat>

  ghost function After(l: seq<nat>, i: nat): nat
    requires i < |l|
  {
    if i + 1 < |l| then l[i + 1] else l[0]
  }

  /** The block at position i links to the next one, the last one to the first. It does not overlap the next
      one, and it has some memory unless it is the first. */
  ghost predicate NodeOk(l: seq<nat>, ptr: Words, sz: Words, i: nat)
    requires i < |l|
  {
    && l[i] in ptr && l[i] in sz && ptr[l[i]] == After(l, i)
    && (1 <= i ==> sz[l[i]] > 0)
    && (1 <= i && i + 1 < |l| ==> l[i] + sz[l[i]] <= l[i + 1])
  }

  predicate Sorted(l: seq<nat>) {
    forall i, j :: 0 <= i < j < |l| ==> l[i] < l[j]
  }

  /** The list starts at base, which has no memory, and its addresses increase. */
  ghost predicate ListOk(l: seq<nat>, ptr: Words, sz: Words, base: nat) {
    && 0 < |l| && l[0] == base > 0 && base in sz && sz[base] == 0 && Sorted(l)
    && forall i: nat :: i < |l| ==> NodeOk(l, ptr, sz, i)
  }

  /** The blocks at positions i and i + 1 do not touch. */
  ghost predicate Gap(l: seq<nat>, sz: Words, i: nat) {
    1 <= i && i + 1 < |l| && l[i] in sz ==> l[i] + sz[l[i]] != l[i + 1]
  }

  /** The free block b. */
  predicate FreeBlock(l: seq<nat>, base: nat, b: nat) { b in l && b != base }

  /** The units of block b are exactly those that own gives it. */
  ghost predicate Holds(sz: Words, own: map<nat, nat>, b: nat) {
    b in sz && sz[b] > 0 && forall u :: b <= u < b + sz[b] ==> u in own && own[u] == b
  }

  ghost predicate LiveOk(l: seq<nat>, sz: Words, live: map<nat, nat>, own: map<nat, nat>, base: nat, a: nat) {
    a in live ==> a > base && Holds(sz, own, a) && sz[a] == live[a] && !FreeBlock(l, base, a)
  }

  ghost predicate FreeOk(l: seq<nat>, sz: Words, own: map<nat, nat>, base: nat, b: nat) {
    FreeBlock(l, base, b) ==> Holds(sz, own, b)
  }

  ghost predicate UnitOk(l: seq<nat>, sz: Words, live: map<nat, nat>, own: map<nat, nat>, base: nat, u: nat) {
    u in own ==> (own[u] in live || FreeBlock(l, base, own[u])) && own[u] in sz && own[u] <= u < own[u] + sz[own[u]]
  }

  /** Every unit of the memory obtained lies in the one block that own names, be it free or live. */
  ghost predicate Shared(l: seq<nat>, sz: Words, live: map<nat, nat>, own: map<nat, nat>, base: nat) {
    && (forall a :: LiveOk(l, sz, live, own, base, a))
    && (forall b :: FreeOk(l, sz, own, base, b))
    && (forall u :: UnitOk(l, sz, live, own, base, u))
  }

  lemma Position(l: seq<nat>, b: nat) returns (i: nat)
    requires b in l
    ensures i < |l| && l[i] == b
  {
    i :| 0 <= i < |l| && l[i] == b;
  }

  // ----- freeing -----

  ghost function Inserted(l: seq<nat>, k: nat, b: nat): seq<nat>
    requires k < |l|
  {
    l[..k + 1] + [b] + l[k + 1..]
  }

  /** Two blocks that both hold memory do not overlap. */
  lemma Disjoint(sz: Words, own: map<nat, nat>, a: nat, b: nat)
    requires Holds(sz, own, a) && Holds(sz, own, b) && a < b
    ensures a + sz[a] <= b
  {
    assert b in own && own[b] == b;
  }

  lemma InsertSorted(l: seq<nat>, k: nat, b: nat)
    requires Sorted(l) && k < |l| && l[k] < b && (k + 1 < |l| ==> b < l[k + 1])
    ensures Sorted(Inserted(l, k, b))
  {
  }

  lemma InsertList(l: seq<nat>, ptr: Words, sz: Words, base: nat, k: nat, b: nat)
    requires ListOk(l, ptr, sz, base) && k < |l| && l[k] < b && (k + 1 < |l| ==> b < l[k + 1]) && b in sz && sz[b] > 0
    requires k >= 1 ==> l[k] in sz && l[k] + sz[l[k]] <= b
    requires k + 1 < |l| ==> b + sz[b] <= l[k + 1]
    ensures NodeOk(l, ptr, sz, k) && ListOk(Inserted(l, k, b), ptr[b := ptr[l[k]]][l[k] := b], sz, base)
  {
    assert NodeOk(l, ptr, sz, k);
    InsertSorted(l, k, b);
    var l', ptr' := Inserted(l, k, b), ptr[b := ptr[l[k]]][l[k] := b];
    forall i: nat | i < |l'| ensures NodeOk(l', ptr', sz, i) {
      InsertNode(l, ptr, sz, base, k, b, i);
    }
    assert l'[0] == l[0];
    hide NodeOk, Sorted;
  }

  lemma InsertNode(l: seq<nat>, ptr: Words, sz: Words, base: nat, k: nat, b: nat, i: nat)
    requires ListOk(l, ptr, sz, base) && k < |l| && l[k] < b && (k + 1 < |l| ==> b < l[k + 1]) && b in sz && sz[b] > 0
    requires k >= 1 ==> l[k] in sz && l[k] + sz[l[k]] <= b
    requires k + 1 < |l| ==> b + sz[b] <= l[k + 1]
    requires NodeOk(l, ptr, sz, k) && i <= |l|
    ensures NodeOk(Inserted(l, k, b), ptr[b := ptr[l[k]]][l[k] := b], sz, i)
  {
    var l', ptr' := Inserted(l, k, b), ptr[b := ptr[l[k]]][l[k] := b];
    if i < k {
      assert NodeOk(l, ptr, sz, i);
      assert l'[i] == l[i] < l[k] && l'[i + 1] == l[i + 1];
    } else if i > k + 1 {
      assert NodeOk(l, ptr, sz, i - 1);
      assert l'[i] == l[i - 1] > l[k] && (i + 1 < |l'| ==> l'[i + 1] == l[i]);
      assert l[i - 1] >= l[k + 1] > b;
    } else {
      assert l'[k] == l[k] && l'[k + 1] == b && (k + 2 < |l'| ==> l'[k + 2] == l[k + 1]);
    }
    assert l'[0] == l[0];
  }

  lemma InsertShared(l: seq<nat>, sz: Words, live: map<nat, nat>, own: map<nat, nat>, base: nat, k: nat, b: nat)
    requires Shared(l, sz, live, own, base) && b in live && k < |l| && Sorted(l)
    ensures Shared(Inserted(l, k, b), sz, live - {b}, own, base)
  {
    var l' := Inserted(l, k, b);
    assert forall x :: x in l' <==> x in l || x == b by {
      forall x | x in l' ensures x in l || x == b {
        var i := Position(l', x);
        assert x == b || x == l[if i <= k then i else i - 1];
      }
      forall x | x in l ensures x in l' {
        var i := Position(l, x);
        assert l'[if i <= k then i else i + 1] == x;
      }
      assert l'[k + 1] == b;
    }
    assert LiveOk(l, sz, live, own, base, b);
    assert forall x :: FreeBlock(l', base, x) <==> FreeBlock(l, base, x) || x == b;
    hide Inserted, Holds, FreeBlock;
    forall x ensures LiveOk(l', sz, live - {b}, own, base, x) {
      assert LiveOk(l, sz, live, own, base, x);
    }
    forall x ensures FreeOk(l', sz, own, base, x) {
      assert FreeOk(l, sz, own, base, x) && LiveOk(l, sz, live, own, base, b);
    }
    forall u ensures UnitOk(l', sz, live - {b}, own, base, u) {
      assert UnitOk(l, sz, live, own, base, u);
    }
  }

  /** A live block goes to its place on the list. */
  lemma InsertOk(l: seq<nat>, ptr: Words, sz: Words, live: map<nat, nat>, own: map<nat, nat>, base: nat, k: nat, b: nat)
    requires ListOk(l, ptr, sz, base) && Shared(l, sz, live, own, base) && b in live
    requires k < |l| && l[k] < b && (k + 1 < |l| ==> b < l[k + 1])
    ensures NodeOk(l, ptr, sz, k)
    ensures ListOk(Inserted(l, k, b), ptr[b := ptr[l[k]]][l[k] := b], sz, base)
    ensures Shared(Inserted(l, k, b), sz, live - {b}, own, base)
  {
    assert LiveOk(l, sz, live, own, base, b);
    if k >= 1 {
      assert FreeOk(l, sz, own, base, l[k]);
      Disjoint(sz, own, l[k], b);
    }
    if k + 1 < |l| {
      assert FreeOk(l, sz, own, base, l[k + 1]);
      Disjoint(sz, own, b, l[k + 1]);
    }
    InsertList(l, ptr, sz, base, k, b);
    InsertShared(l, sz, live, own, base, k, b);
  }

  /** Blocks i and i + 1 touch: they become one. */
  ghost function Merged(l: seq<nat>, i: nat): seq<nat>
    requires i + 1 < |l|
  {
    l[..i + 1] + l[i + 2..]
  }

  ghost function Given(own: map<nat, nat>, from: nat, to: nat): map<nat, nat> {
    map u | u in own :: if own[u] == from then to else own[u]
  }

  lemma MergeOk(l: seq<nat>, ptr: Words, sz: Words, live: map<nat, nat>, own: map<nat, nat>, base: nat, i: nat)
    requires ListOk(l, ptr, sz, base) && Shared(l, sz, live, own, base) && 1 <= i && i + 1 < |l|
    requires NodeOk(l, ptr, sz, i) && NodeOk(l, ptr, sz, i + 1) && l[i] + sz[l[i]] == l[i + 1]
    ensures ListOk(Merged(l, i), ptr[l[i] := ptr[l[i + 1]]], sz[l[i] := sz[l[i]] + sz[l[i + 1]]], base)
    ensures Shared(Merged(l, i), sz[l[i] := sz[l[i]] + sz[l[i + 1]]], live, Given(own, l[i + 1], l[i]), base)
  {
    MergeList(l, ptr, sz, base, i);
    MergeShared(l, sz, live, own, base, i);
  }

  lemma MergeList(l: seq<nat>, ptr: Words, sz: Words, base: nat, i: nat)
    requires ListOk(l, ptr, sz, base) && 1 <= i && i + 1 < |l|
    requires NodeOk(l, ptr, sz, i) && NodeOk(l, ptr, sz, i + 1) && l[i] + sz[l[i]] == l[i + 1]
    ensures ListOk(Merged(l, i), ptr[l[i] := ptr[l[i + 1]]], sz[l[i] := sz[l[i]] + sz[l[i + 1]]], base)
  {
    var l', ptr', sz' := Merged(l, i), ptr[l[i] := ptr[l[i + 1]]], sz[l[i] := sz[l[i]] + sz[l[i + 1]]];
    forall j: nat | j < |l'| ensures NodeOk(l', ptr', sz', j) {
      assert NodeOk(l, ptr, sz, if j <= i then j else j + 1);
    }
  }

  lemma Without(l: seq<nat>, i: nat)
    requires i + 1 < |l| && Sorted(l)
    ensures forall x :: x in Merged(l, i) <==> x in l && x != l[i + 1]
  {
  }

  lemma MergeShared(l: seq<nat>, sz: Words, live: map<nat, nat>, own: map<nat, nat>, base: nat, i: nat)
    requires Sorted(l) && Shared(l, sz, live, own, base) && 1 <= i && i + 1 < |l| && l[0] == base
    requires l[i] in sz && l[i + 1] in sz && l[i] + sz[l[i]] == l[i + 1]
    ensures Shared(Merged(l, i), sz[l[i] := sz[l[i]] + sz[l[i + 1]]], live, Given(own, l[i + 1], l[i]), base)
  {
    hide Merged, Shared, Given;
    Without(l, i);
    assert FreeBlock(l, base, l[i]) && FreeBlock(l, base, l[i + 1]);
    BlocksMerged(l, Merged(l, i), sz, live, own, base, l[i], l[i + 1]);
  }

  lemma BlocksMerged(l: seq<nat>, l': seq<nat>, sz: Words, live: map<nat, nat>, own: map<nat, nat>, base: nat, a: nat, b: nat)
    requires Shared(l, sz, live, own, base) && FreeBlock(l, base, a) && FreeBlock(l, base, b) && a != b
    requires forall x :: FreeBlock(l', base, x) <==> FreeBlock(l, base, x) && x != b
    requires a in sz && b in sz && a + sz[a] == b
    ensures Shared(l', sz[a := sz[a] + sz[b]], live, Given(own, b, a), base)
  {
    var sz', own' := sz[a := sz[a] + sz[b]], Given(own, b, a);
    assert FreeOk(l, sz, own, base, a) && FreeOk(l, sz, own, base, b);
    hide Holds, Given, FreeBlock;
    forall x ensures LiveOk(l', sz', live, own', base, x) {
      assert LiveOk(l, sz, live, own, base, x);
      if x in live {
        HoldsMerged(sz, own, a, b, x);
      }
    }
    forall x ensures FreeOk(l', sz', own', base, x) {
      assert FreeOk(l, sz, own, base, x);
      if FreeBlock(l', base, x) {
        HoldsMerged(sz, own, a, b, x);
      }
    }
    forall u ensures UnitOk(l', sz', live, own', base, u) {
      assert UnitOk(l, sz, live, own, base, u) && LiveOk(l, sz, live, own, base, b) && LiveOk(l, sz, live, own, base, a);
      GivenAt(own, b, a, u);
    }
  }

  lemma GivenAt(own: map<nat, nat>, from: nat, to: nat, u: nat)
    ensures u in Given(own, from, to) <==> u in own
    ensures u in own ==> Given(own, from, to)[u] == if own[u] == from then to else own[u]
  {
  }

  lemma HoldsMerged(sz: Words, own: map<nat, nat>, a: nat, b: nat, x: nat)
    requires Holds(sz, own, a) && Holds(sz, own, b) && a + sz[a] == b && Holds(sz, own, x) && x != b
    ensures Holds(sz[a := sz[a] + sz[b]], Given(own, b, a), x)
  {
  }

  /** No two blocks touch, except that nothing is said about those at positions d and e. */
  ghost predicate ApartBut(l: seq<nat>, sz: Words, d: nat, e: nat) {
    forall i: nat :: i != d && i != e ==> Gap(l, sz, i)
  }

  lemma InsertGaps(l: seq<nat>, sz: Words, k: nat, b: nat)
    requires k < |l| && ApartBut(l, sz, 0, 0)
    ensures ApartBut(Inserted(l, k, b), sz, k, k + 1)
  {
    forall i: nat | i != k && i != k + 1 ensures Gap(Inserted(l, k, b), sz, i) {
      assert Gap(l, sz, if i < k then i else i - 1);
    }
  }

  lemma MergeGaps(l: seq<nat>, sz: Words, i: nat, d: nat)
    requires 1 <= i && i + 1 < |l| && d < i && Sorted(l) && ApartBut(l, sz, d, i) && l[i] in sz && l[i + 1] in sz
    requires l[i] + sz[l[i]] == l[i + 1]
    ensures ApartBut(Merged(l, i), sz[l[i] := sz[l[i]] + sz[l[i + 1]]], d, d)
  {
    var l', sz' := Merged(l, i), sz[l[i] := sz[l[i]] + sz[l[i + 1]]];
    forall j: nat | j != d ensures Gap(l', sz', j) {
      assert Gap(l, sz, if j < i then j else j + 1);
    }
  }

  // ----- allocating -----

  /** A free block leaves the list whole. */
  lemma UnlinkOk(l: seq<nat>, ptr: Words, sz: Words, live: map<nat, nat>, own: map<nat, nat>, base: nat, i: nat)
    requires ListOk(l, ptr, sz, base) && Shared(l, sz, live, own, base) && ApartBut(l, sz, 0, 0) && i + 1 < |l|
    ensures NodeOk(l, ptr, sz, i) && NodeOk(l, ptr, sz, i + 1)
    ensures ListOk(Merged(l, i), ptr[l[i] := ptr[l[i + 1]]], sz, base)
    ensures Shared(Merged(l, i), sz, live[l[i + 1] := sz[l[i + 1]]], own, base)
    ensures ApartBut(Merged(l, i), sz, 0, 0)
  {
    assert NodeOk(l, ptr, sz, i) && NodeOk(l, ptr, sz, i + 1);
    UnlinkList(l, ptr, sz, base, i);
    UnlinkGaps(l, ptr, sz, base, i);
    Without(l, i);
    assert FreeBlock(l, base, l[i + 1]);
    assert forall x :: FreeBlock(Merged(l, i), base, x) <==> FreeBlock(l, base, x) && x != l[i + 1];
    hide Merged, Holds, FreeBlock, NodeOk, ListOk, ApartBut;
    var l', b := Merged(l, i), l[i + 1];
    var live' := live[b := sz[b]];
    forall x ensures LiveOk(l', sz, live', own, base, x) {
      assert LiveOk(l, sz, live, own, base, x) && FreeOk(l, sz, own, base, x);
    }
    forall x ensures FreeOk(l', sz, own, base, x) {
      assert FreeOk(l, sz, own, base, x);
    }
    forall u ensures UnitOk(l', sz, live', own, base, u) {
      assert UnitOk(l, sz, live, own, base, u);
    }
  }

  lemma UnlinkList(l: seq<nat>, ptr: Words, sz: Words, base: nat, i: nat)
    requires ListOk(l, ptr, sz, base) && i + 1 < |l| && NodeOk(l, ptr, sz, i) && NodeOk(l, ptr, sz, i + 1)
    ensures ListOk(Merged(l, i), ptr[l[i] := ptr[l[i + 1]]], sz, base)
  {
    var l', ptr' := Merged(l, i), ptr[l[i] := ptr[l[i + 1]]];
    forall j: nat | j < |l'| ensures NodeOk(l', ptr', sz, j) {
      assert NodeOk(l, ptr, sz, if j <= i then j else j + 1);
    }
  }

  lemma UnlinkGaps(l: seq<nat>, ptr: Words, sz: Words, base: nat, i: nat)
    requires ListOk(l, ptr, sz, base) && i + 1 < |l| && NodeOk(l, ptr, sz, i) && ApartBut(l, sz, 0, 0)
    ensures ApartBut(Merged(l, i), sz, 0, 0)
  {
    var l' := Merged(l, i);
    forall j: nat | j != 0 ensures Gap(l', sz, j) {
      assert Gap(l, sz, if j < i then j else j + 1);
    }
  }

  /** The units from a on go to a block of their own. */
  ghost function Cut(own: map<nat, nat>, p: nat, a: nat): map<nat, nat> {
    map u | u in own :: if own[u] == p && u >= a then a else own[u]
  }

  /** The end of a larger free block becomes a live block. */
  lemma SplitOk(l: seq<nat>, ptr: Words, sz: Words, live: map<nat, nat>, own: map<nat, nat>, base: nat, i: nat, n: nat)
    requires ListOk(l, ptr, sz, base) && Shared(l, sz, live, own, base) && ApartBut(l, sz, 0, 0)
    requires 1 <= i < |l| && NodeOk(l, ptr, sz, i) && 0 < n < sz[l[i]]
    ensures var a := l[i] + sz[l[i]] - n;
            var sz' := sz[l[i] := sz[l[i]] - n][a := n];
            && ListOk(l, ptr, sz', base) && Shared(l, sz', live[a := n], Cut(own, l[i], a), base) && ApartBut(l, sz', 0, 0)
            && a !in live
  {
    var a := l[i] + sz[l[i]] - n;
    var sz' := sz[l[i] := sz[l[i]] - n][a := n];
    assert FreeOk(l, sz, own, base, l[i]);
    assert a in own && own[a] == l[i];
    hide ListOk, NodeOk, Shared, ApartBut, Holds;
    NotAStart(l, sz, live, own, base, l[i], a);
    SplitList(l, ptr, sz, base, i, n);
    SplitShared(l, sz, live, own, base, l[i], n);
  }

  lemma NotAStart(l: seq<nat>, sz: Words, live: map<nat, nat>, own: map<nat, nat>, base: nat, p: nat, a: nat)
    requires Shared(l, sz, live, own, base) && a in own && own[a] == p != a && base < a
    ensures a !in live && a !in l
  {
    assert LiveOk(l, sz, live, own, base, a) && FreeOk(l, sz, own, base, a);
  }

  lemma SplitList(l: seq<nat>, ptr: Words, sz: Words, base: nat, i: nat, n: nat)
    requires ListOk(l, ptr, sz, base) && ApartBut(l, sz, 0, 0) && 1 <= i < |l| && NodeOk(l, ptr, sz, i) && 0 < n < sz[l[i]]
    requires l[i] + sz[l[i]] - n !in l
    ensures var a := l[i] + sz[l[i]] - n;
            var sz' := sz[l[i] := sz[l[i]] - n][a := n];
            ListOk(l, ptr, sz', base) && ApartBut(l, sz', 0, 0)
  {
    var a := l[i] + sz[l[i]] - n;
    var sz' := sz[l[i] := sz[l[i]] - n][a := n];
    forall j: nat | j < |l| ensures NodeOk(l, ptr, sz', j) {
      assert NodeOk(l, ptr, sz, j);
      assert l[j] in l;
    }
    forall j: nat | j != 0 ensures Gap(l, sz', j) {
      assert Gap(l, sz, j);
      assert j < |l| ==> l[j] in l;
    }
  }

  lemma CutAt(own: map<nat, nat>, p: nat, a: nat, u: nat)
    ensures u in Cut(own, p, a) <==> u in own
    ensures u in own ==> Cut(own, p, a)[u] == if own[u] == p && u >= a then a else own[u]
  {
  }

  lemma HoldsCut(sz: Words, own: map<nat, nat>, p: nat, n: nat, x: nat)
    requires Holds(sz, own, p) && 0 < n < sz[p] && Holds(sz, own, x)
    ensures var a := p + sz[p] - n;
            Holds(sz[p := sz[p] - n][a := n], Cut(own, p, a), x) && Holds(sz[p := sz[p] - n][a := n], Cut(own, p, a), a) && x != a
  {
    var a := p + sz[p] - n;
    assert own[a] == p;
    assert x in own && own[x] == x;
  }

  lemma SplitShared(l: seq<nat>, sz: Words, live: map<nat, nat>, own: map<nat, nat>, base: nat, p: nat, n: nat)
    requires Shared(l, sz, live, own, base) && FreeBlock(l, base, p) && p in sz && 0 < n < sz[p] && base < p
    requires p + sz[p] - n !in l
    ensures var a := p + sz[p] - n;
            Shared(l, sz[p := sz[p] - n][a := n], live[a := n], Cut(own, p, a), base)
  {
    var a := p + sz[p] - n;
    var sz', live', own' := sz[p := sz[p] - n][a := n], live[a := n], Cut(own, p, a);
    assert !FreeBlock(l, base, a) && FreeOk(l, sz, own, base, p);
    hide Holds, Cut, FreeBlock;
    HoldsCut(sz, own, p, n, p);
    forall x ensures LiveOk(l, sz', live', own', base, x) {
      assert LiveOk(l, sz, live, own, base, x) && LiveOk(l, sz, live, own, base, p);
      if x in live {
        HoldsCut(sz, own, p, n, x);
      }
    }
    forall x ensures FreeOk(l, sz', own', base, x) {
      assert FreeOk(l, sz, own, base, x);
      if FreeBlock(l, base, x) {
        HoldsCut(sz, own, p, n, x);
      }
    }
    forall u ensures UnitOk(l, sz', live', own', base, u) {
      SplitUnit(l, sz, live, own, base, p, n, u);
    }
  }

  lemma SplitUnit(l: seq<nat>, sz: Words, live: map<nat, nat>, own: map<nat, nat>, base: nat, p: nat, n: nat, u: nat)
    requires Shared(l, sz, live, own, base) && FreeBlock(l, base, p) && Holds(sz, own, p) && p in sz && 0 < n < sz[p]
    ensures var a := p + sz[p] - n;
            UnitOk(l, sz[p := sz[p] - n][a := n], live[a := n], Cut(own, p, a), base, u)
  {
    hide Holds, Cut, FreeBlock;
    assert UnitOk(l, sz, live, own, base, u);
    CutAt(own, p, p + sz[p] - n, u);
    if u in own {
      assert LiveOk(l, sz, live, own, base, own[u]) && FreeOk(l, sz, own, base, own[u]);
      HoldsCut(sz, own, p, n, own[u]);
    }
  }

  // ----- new memory -----

  /** Fresh memory is a live block until it is freed. */
  lemma CoreOk(l: seq<nat>, ptr: Words, sz: Words, live: map<nat, nat>, own: map<nat, nat>, base: nat, a: nat, n: nat)
    requires ListOk(l, ptr, sz, base) && Shared(l, sz, live, own, base) && ApartBut(l, sz, 0, 0)
    requires n > 0 && base < a && forall u :: u in own ==> u < a
    ensures var sz' := sz[a := n];
            && ListOk(l, ptr, sz', base) && Shared(l, sz', live[a := n], Fresh(own, a, n), base) && ApartBut(l, sz', 0, 0)
            && a !in live
  {
    assert LiveOk(l, sz, live, own, base, a) && FreeOk(l, sz, own, base, a);
    assert Holds(sz, own, a) ==> a in own;
    CoreList(l, ptr, sz, base, a, n);
    CoreShared(l, sz, live, own, base, a, n);
  }

  lemma CoreList(l: seq<nat>, ptr: Words, sz: Words, base: nat, a: nat, n: nat)
    requires ListOk(l, ptr, sz, base) && ApartBut(l, sz, 0, 0) && base < a && !FreeBlock(l, base, a)
    ensures ListOk(l, ptr, sz[a := n], base) && ApartBut(l, sz[a := n], 0, 0)
  {
    var sz' := sz[a := n];
    forall j: nat | j < |l| ensures NodeOk(l, ptr, sz', j) {
      assert NodeOk(l, ptr, sz, j);
      assert l[j] in l;
    }
    forall j: nat | j != 0 ensures Gap(l, sz', j) {
      assert Gap(l, sz, j);
      assert j < |l| ==> l[j] in l;
    }
  }

  lemma HoldsFresh(sz: Words, own: map<nat, nat>, a: nat, n: nat, x: nat)
    requires Holds(sz, own, x) && forall u :: u in own ==> u < a
    ensures Holds(sz[a := n], Fresh(own, a, n), x) && x != a
  {
    assert x in own;
    forall u | x <= u < x + sz[x] ensures u in Fresh(own, a, n) && Fresh(own, a, n)[u] == x {
      FreshAt(own, a, n, u);
    }
  }

  lemma FreshHolds(sz: Words, own: map<nat, nat>, a: nat, n: nat)
    requires n > 0
    ensures Holds(sz[a := n], Fresh(own, a, n), a)
  {
  }

  lemma CoreShared(l: seq<nat>, sz: Words, live: map<nat, nat>, own: map<nat, nat>, base: nat, a: nat, n: nat)
    requires Shared(l, sz, live, own, base) && base < a && !FreeBlock(l, base, a) && a !in live && n > 0
    requires forall u :: u in own ==> u < a
    ensures Shared(l, sz[a := n], live[a := n], Fresh(own, a, n), base)
  {
    var sz', live', own' := sz[a := n], live[a := n], Fresh(own, a, n);
    FreshHolds(sz, own, a, n);
    hide Holds, Fresh, FreeBlock;
    forall x ensures LiveOk(l, sz', live', own', base, x) {
      assert LiveOk(l, sz, live, own, base, x);
      if x in live {
        HoldsFresh(sz, own, a, n, x);
      }
    }
    forall x ensures FreeOk(l, sz', own', base, x) {
      assert FreeOk(l, sz, own, base, x);
      if FreeBlock(l, base, x) {
        HoldsFresh(sz, own, a, n, x);
      }
    }
    forall u ensures UnitOk(l, sz', live', own', base, u) {
      assert UnitOk(l, sz, live, own, base, u);
      FreshAt(own, a, n, u);
      if u in own {
        assert LiveOk(l, sz, live, own, base, own[u]) && FreeOk(l, sz, own, base, own[u]);
        HoldsFresh(sz, own, a, n, own[u]);
      }
    }
  }

  /** The n units from a on are added, as one block. */
  ghost function Fresh(own: map<nat, nat>, a: nat, n: nat): map<nat, nat> {
    if n == 0 then own else Fresh(own, a, n - 1)[a + n - 1 := a]
  }

  lemma {:induction false} FreshAt(own: map<nat, nat>, a: nat, n: nat, u: nat)
    ensures u in Fresh(own, a, n) <==> u in own || a <= u < a + n
    ensures u in Fresh(own, a, n) ==> Fresh(own, a, n)[u] == if a <= u < a + n then a else own[u]
  {
    if n > 0 {
      FreshAt(own, a, n - 1, u);
    }
  }

  lemma InsertedAt(l: seq<nat>, k: nat, b: nat)
    requires k < |l|
    ensures var l' := Inserted(l, k, b);
            |l'| == |l| + 1 && l'[k] == l[k] && l'[k + 1] == b && (k + 1 < |l| ==> l'[k + 2] == l[k + 1])
  {
  }

  lemma MergedAt(l: seq<nat>, i: nat)
    requires i + 1 < |l|
    ensures |Merged(l, i)| == |l| - 1 && forall j :: 0 <= j <= i ==> Merged(l, i)[j] == l[j]
  {
  }

  lemma GivenKeys(own: map<nat, nat>, from: nat, to: nat)
    ensures Given(own, from, to).Keys == own.Keys
  {
  }

  lemma CutKeys(own: map<nat, nat>, p: nat, a: nat)
    ensures Cut(own, p, a).Keys == own.Keys
  {
  }

  lemma Node(l: seq<nat>, ptr: Words, sz: Words, base: nat, i: nat)
    requires ListOk(l, ptr, sz, base) && i < |l|
    ensures NodeOk(l, ptr, sz, i) && l[i] in ptr && l[i] in sz && ptr[l[i]] == if i + 1 < |l| then l[i + 1] else base
    ensures Sorted(l) && l[0] == base && sz[base] == 0 && (i > 0 ==> FreeBlock(l, base, l[i]) && sz[l[i]] > 0)
  {
  }

  lemma LiveBlock(l: seq<nat>, sz: Words, live: map<nat, nat>, own: map<nat, nat>, base: nat, a: nat)
    requires Shared(l, sz, live, own, base) && a in live
    ensures a > base && a in sz && sz[a] == live[a] > 0 && a !in l
  {
    assert LiveOk(l, sz, live, own, base, a);
  }

  lemma OneGap(l: seq<nat>, sz: Words, d: nat, e: nat)
    requires ApartBut(l, sz, d, e) && Gap(l, sz, e)
    ensures ApartBut(l, sz, d, d) && (d == e ==> ApartBut(l, sz, 0, 0))
  {
  }

  lemma OneOpen(l: seq<nat>, sz: Words, e: nat)
    requires ApartBut(l, sz, e, e)
    ensures ApartBut(l, sz, 0, e)
  {
  }

  /** Joining the freed block with the free block above it. */
  lemma JoinedAbove(l: seq<nat>, ptr: Words, sz: Words, live: map<nat, nat>, own: map<nat, nat>, base: nat, p: nat, bp: nat, k: nat)
    requires p in ptr && ListOk(l, ptr[bp := ptr[p]][p := bp], sz, base) && Shared(l, sz, live, own, base) && ApartBut(l, sz, k, k + 1)
    requires k + 1 < |l| && l[k] == p && l[k + 1] == bp && p < bp && bp in sz && bp + sz[bp] == ptr[p]
    ensures k + 2 < |l| && ptr[p] in ptr && ptr[p] in sz
    ensures var l', sz' := Merged(l, k + 1), sz[bp := sz[bp] + sz[ptr[p]]];
            && ListOk(l', ptr[bp := ptr[ptr[p]]][p := bp], sz', base) && Shared(l', sz', live, Given(own, ptr[p], bp), base)
            && ApartBut(l', sz', k, k) && k + 1 < |l'| && l'[k] == p && l'[k + 1] == bp
  {
    hide ListOk, Shared, ApartBut, NodeOk, Merged, Given;
    var ptr1 := ptr[bp := ptr[p]][p := bp];
    Node(l, ptr1, sz, base, k + 1);
    Node(l, ptr1, sz, base, k + 2);
    MergeOk(l, ptr1, sz, live, own, base, k + 1);
    MergeGaps(l, sz, k + 1, k);
    MergedAt(l, k + 1);
    assert ptr1[bp := ptr1[ptr[p]]] == ptr[bp := ptr[ptr[p]]][p := bp];
  }

  lemma NotLive(l: seq<nat>, sz: Words, live: map<nat, nat>, own: map<nat, nat>, base: nat, b: nat)
    requires Shared(l, sz, live, own, base) && FreeBlock(l, base, b)
    ensures b !in live
  {
    assert LiveOk(l, sz, live, own, base, b);
  }

  /** Before any memory has been obtained the list is base alone. */
  lemma EmptyList(ptr: Words, sz: Words, base: nat)
    requires base > 0 && base in ptr && ptr[base] == base && base in sz && sz[base] == 0
    ensures ListOk([base], ptr, sz, base) && Shared([base], sz, map[], map[], base) && ApartBut([base], sz, 0, 0)
  {
  }

  // ----- what it means -----

  predicate IsBlock(l: seq<nat>, live: map<nat, nat>, base: nat, b: nat) { b in live || FreeBlock(l, base, b) }

  /** Free and live blocks share out the memory obtained: no unit lies in two of them, and every unit lies in one. */
  lemma Partition(l: seq<nat>, sz: Words, live: map<nat, nat>, own: map<nat, nat>, base: nat, a: nat, b: nat, u: nat)
    requires Shared(l, sz, live, own, base) && IsBlock(l, live, base, a) && IsBlock(l, live, base, b)
    ensures a in sz && b in sz && (a <= u < a + sz[a] && b <= u < b + sz[b] ==> a == b && u in own)
    ensures u in own ==> IsBlock(l, live, base, own[u]) && own[u] in sz && own[u] <= u < own[u] + sz[own[u]]
  {
    assert LiveOk(l, sz, live, own, base, a) && LiveOk(l, sz, live, own, base, b);
    assert FreeOk(l, sz, own, base, a) && FreeOk(l, sz, own, base, b);
    assert UnitOk(l, sz, live, own, base, u);
  }

  /** Between two free blocks that follow each other on the list there is memory that is not free. */
  lemma NeverTouch(l: seq<nat>, ptr: Words, sz: Words, base: nat, i: nat)
    requires ListOk(l, ptr, sz, base) && ApartBut(l, sz, 0, 0) && 1 <= i && i + 1 < |l|
    ensures l[i] in sz && l[i] in ptr && l[i] + sz[l[i]] < l[i + 1] == ptr[l[i]]
  {
    assert NodeOk(l, ptr, sz, i) && Gap(l, sz, i);
  }

  /** The allocator depends on its headers only: what programs do with the memory they were given, and what is
      left in free memory, does not matter. */
  lemma HeadersOnly(l: seq<nat>, ptr: Words, sz: Words, live: map<nat, nat>, own: map<nat, nat>, base: nat, ptr': Words, sz': Words)
    requires ListOk(l, ptr, sz, base) && Shared(l, sz, live, own, base) && ApartBut(l, sz, 0, 0)
    requires forall b :: b in l && b in ptr ==> b in ptr' && ptr'[b] == ptr[b]
    requires forall b :: (b in l || b in live) && b in sz ==> b in sz' && sz'[b] == sz[b]
    ensures ListOk(l, ptr', sz', base) && Shared(l, sz', live, own, base) && ApartBut(l, sz', 0, 0)
  {
    forall i: nat | i < |l| ensures NodeOk(l, ptr', sz', i) {
      assert NodeOk(l, ptr, sz, i);
      assert l[i] in l;
    }
    assert l[0] in l;
    forall i: nat | i != 0 ensures Gap(l, sz', i) {
      assert Gap(l, sz, i);
      assert i < |l| ==> l[i] in l && NodeOk(l, ptr, sz, i);
    }
    forall x ensures LiveOk(l, sz', live, own, base, x) && FreeOk(l, sz', own, base, x) {
      assert LiveOk(l, sz, live, own, base, x) && FreeOk(l, sz, own, base, x);
    }
    forall u ensures UnitOk(l, sz', live, own, base, u) {
      assert UnitOk(l, sz, live, own, base, u);
    }
  }
}
