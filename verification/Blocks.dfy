/** Disk blocks: fixed-size byte arrays read and written as bytes or as
    little-endian 32-bit words, and a disk as a sequence of such blocks. */
module Blocks {
  import opened Common

  const BSIZE: nat := 1024
  const WORDS: nat := 256

  /** What one file-system call may log. */
  const MAXOPBLOCKS: nat := 10

  type word = x: int | 0 <= x < 0x1_0000_0000

  type Block = b: seq<byte> | |b| == BSIZE witness seq(BSIZE, _ => 0)

  type Disk = seq<Block>

  /** The block that memset leaves. */
  function ZeroBlock(): (b: Block)
    ensures forall i :: 0 <= i < BSIZE ==> b[i] == 0
  {
    seq(BSIZE, _ => 0)
  }

  /** The i-th 32-bit word of a block. */
  function Word(b: Block, i: nat): word
    requires i < WORDS
  {
    var b0: int, b1: int, b2: int, b3: int := b[4 * i], b[4 * i + 1], b[4 * i + 2], b[4 * i + 3];
    b0 + 256 * b1 + 65536 * b2 + 16777216 * b3
  }

  /** Block b with its i-th word replaced by w. */
  function SetWord(b: Block, i: nat, w: word): Block
    requires i < WORDS
  {
    b[4 * i := w % 256][4 * i + 1 := w / 256 % 256][4 * i + 2 := w / 65536 % 256][4 * i + 3 := w / 16777216]
  }

  /** Words are independent cells: a write is read back and disturbs no other word. */
  lemma WordOfSetWord(b: Block, i: nat, w: word, j: nat)
    requires i < WORDS && j < WORDS
    ensures Word(SetWord(b, i, w), j) == if i == j then w else Word(b, j)
  {
    if i == j {
      SplitWord(w);
    }
  }

  lemma SplitWord(w: word)
    ensures w == w % 256 + 256 * (w / 256 % 256) + 65536 * (w / 65536 % 256) + 16777216 * (w / 16777216)
  {
    assert w / 65536 == w / 256 / 256;
    assert w / 16777216 == w / 65536 / 256;
  }

  lemma ZeroWord(i: nat)
    requires i < WORDS
    ensures Word(ZeroBlock(), i) == 0
  {
  }
}
