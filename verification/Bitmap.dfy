/** The free bitmap: one bit per disk block, packed eight to a byte. */
module Bitmap {
  import opened Common
  import opened Blocks

  const BPB: nat := BSIZE * 8

  /** Bit k of x: x & (1 << k). */
  predicate Bit(x: nat, k: nat) {
    if k == 0 then x % 2 == 1 else Bit(x / 2, k - 1)
  }

  /** x | (1 << k) */
  function SetBit(x: nat, k: nat): nat {
    if k == 0 then x / 2 * 2 + 1 else x % 2 + 2 * SetBit(x / 2, k - 1)
  }

  /** x & ~(1 << k) */
  function ClearBit(x: nat, k: nat): nat {
    if k == 0 then x / 2 * 2 else x % 2 + 2 * ClearBit(x / 2, k - 1)
  }

  lemma {:induction false} SetBitAt(x: nat, k: nat, j: nat)
    ensures Bit(SetBit(x, k), j) <==> j == k || Bit(x, j)
  {
    if k > 0 && j > 0 {
      SetBitAt(x / 2, k - 1, j - 1);
      assert SetBit(x, k) / 2 == SetBit(x / 2, k - 1);
    } else if j > 0 {
      assert SetBit(x, k) / 2 == x / 2;
    }
  }

  lemma {:induction false} ClearBitAt(x: nat, k: nat, j: nat)
    ensures Bit(ClearBit(x, k), j) <==> j != k && Bit(x, j)
  {
    if k > 0 && j > 0 {
      ClearBitAt(x / 2, k - 1, j - 1);
      assert ClearBit(x, k) / 2 == ClearBit(x / 2, k - 1);
    } else if j > 0 {
      assert ClearBit(x, k) / 2 == x / 2;
    }
  }

  function Pow2(n: nat): nat {
    if n == 0 then 1 else 2 * Pow2(n - 1)
  }

  lemma {:induction false} BitsFit(x: nat, k: nat, n: nat)
    requires x < Pow2(n) && k < n
    ensures SetBit(x, k) < Pow2(n) && ClearBit(x, k) < Pow2(n)
  {
    if k > 0 {
      BitsFit(x / 2, k - 1, n - 1);
    }
  }

  lemma ByteFits(x: byte, k: nat)
    requires k < 8
    ensures SetBit(x, k) < 256 && ClearBit(x, k) < 256
  {
    BitsFit(x, k, 8);
  }

  /** Where the bitmap starts and how many blocks it describes. */
  datatype Map = Map(start: nat, size: nat)

  predicate MapOk(m: Map, d: Disk) {
    m.size == |d| && (m.size > 0 ==> m.start + (m.size - 1) / BPB < |d|)
  }

  /** The bitmap block of block b. */
  function BBlock(m: Map, b: nat): nat {
    b / BPB + m.start
  }

  lemma BBlockInRange(m: Map, d: Disk, b: nat)
    requires MapOk(m, d) && b < m.size
    ensures BBlock(m, b) < |d|
  {
  }

  lemma DivMono(a: nat, b: nat)
    requires a <= b
    ensures a / BPB <= b / BPB
  {
  }

  /** Is block b marked in use? */
  predicate Used(m: Map, d: Disk, b: nat)
    requires MapOk(m, d) && b < m.size
  {
    BBlockInRange(m, d, b);
    Bit(d[BBlock(m, b)][b % BPB / 8], b % 8)
  }

  /** The disk with block b marked in use. */
  function Mark(m: Map, d: Disk, b: nat): (r: Disk)
    requires MapOk(m, d) && b < m.size
    ensures |r| == |d|
  {
    BBlockInRange(m, d, b);
    var bp := d[BBlock(m, b)];
    ByteFits(bp[b % BPB / 8], b % 8);
    d[BBlock(m, b) := bp[b % BPB / 8 := SetBit(bp[b % BPB / 8], b % 8)]]
  }

  /** The disk with block b marked free. */
  function Unmark(m: Map, d: Disk, b: nat): (r: Disk)
    requires MapOk(m, d) && b < m.size
    ensures |r| == |d|
  {
    BBlockInRange(m, d, b);
    var bp := d[BBlock(m, b)];
    ByteFits(bp[b % BPB / 8], b % 8);
    d[BBlock(m, b) := bp[b % BPB / 8 := ClearBit(bp[b % BPB / 8], b % 8)]]
  }

  /** Two blocks share their bit only if they are the same block. */
  lemma SameBit(m: Map, b: nat, c: nat)
    requires BBlock(m, b) == BBlock(m, c) && b % BPB / 8 == c % BPB / 8 && b % 8 == c % 8
    ensures b == c
  {
    ModOfMod(b, 8, 1024, BPB);
    ModOfMod(c, 8, 1024, BPB);
  }

  /** Marking sets exactly the bit of that block. */
  lemma MarkAt(m: Map, d: Disk, b: nat, c: nat)
    requires MapOk(m, d) && b < m.size && c < m.size
    ensures MapOk(m, Mark(m, d, b))
    ensures Used(m, Mark(m, d, b), c) <==> c == b || Used(m, d, c)
  {
    BBlockInRange(m, d, b);
    BBlockInRange(m, d, c);
    var x := d[BBlock(m, b)][b % BPB / 8];
    SetBitAt(x, b % 8, c % 8);
    if BBlock(m, b) == BBlock(m, c) && b % BPB / 8 == c % BPB / 8 && b % 8 == c % 8 {
      SameBit(m, b, c);
    }
  }

  /** Unmarking clears exactly the bit of that block. */
  lemma UnmarkAt(m: Map, d: Disk, b: nat, c: nat)
    requires MapOk(m, d) && b < m.size && c < m.size
    ensures MapOk(m, Unmark(m, d, b))
    ensures Used(m, Unmark(m, d, b), c) <==> c != b && Used(m, d, c)
  {
    BBlockInRange(m, d, b);
    BBlockInRange(m, d, c);
    var x := d[BBlock(m, b)][b % BPB / 8];
    ClearBitAt(x, b % 8, c % 8);
    if BBlock(m, b) == BBlock(m, c) && b % BPB / 8 == c % BPB / 8 && b % 8 == c % 8 {
      SameBit(m, b, c);
    }
  }

  /** Changing blocks outside the bitmap changes no bit. */
  lemma UsedFrame(m: Map, d: Disk, e: Disk, b: nat)
    requires MapOk(m, d) && |e| == |d| && b < m.size
    requires forall x: nat :: m.start <= x <= m.start + (m.size - 1) / BPB && x < |d| ==> e[x] == d[x]
    ensures MapOk(m, e) && Used(m, e, b) == Used(m, d, b)
  {
  }
}
