/** Inodes and their on-disk form: sixteen 64-byte records to a block. */
module Inodes {
  import opened Common
  import opened Blocks

  const NDIRECT: nat := 12
  const NINDIRECT: nat := WORDS
  const MAXFILE: nat := NDIRECT + NINDIRECT
  const IPB: nat := 16
  // direct slots, the pointer to the indirect block, the slots in the indirect block
  const NSLOTS: nat := NDIRECT + 1 + NINDIRECT

  type short = x: int | 0 <= x < 65536

  /** kind is the on-disk field "type"; 0 marks a free inode. */
  datatype Inode = Inode(kind: short, major: short, minor: short, nlink: short, size: word, addrs: seq<word>)

  predicate InodeOk(ino: Inode) {
    |ino.addrs| == NDIRECT + 1
  }

  const FREE_INODE: Inode := Inode(0, 0, 0, 0, 0, seq(NDIRECT + 1, _ => 0))

  /** The sixteen words of an on-disk inode. */
  function Fields(ino: Inode): (ws: seq<word>)
    requires InodeOk(ino)
    ensures |ws| == 16
  {
    var a: int, b: int, c: int, d: int := ino.kind, ino.major, ino.minor, ino.nlink;
    [a + 65536 * b, c + 65536 * d, ino.size] + ino.addrs
  }

  /** Block bp with the first n of the words ws stored from word at on. */
  function PutWords(bp: Block, at: nat, ws: seq<word>, n: nat): Block
    requires n <= |ws| && at + n <= WORDS
  {
    if n == 0 then bp else SetWord(PutWords(bp, at, ws, n - 1), at + n - 1, ws[n - 1])
  }

  lemma {:induction false} PutWordsAt(bp: Block, at: nat, ws: seq<word>, n: nat, j: nat)
    requires n <= |ws| && at + n <= WORDS && j < WORDS
    ensures Word(PutWords(bp, at, ws, n), j) == if at <= j < at + n then ws[j - at] else Word(bp, j)
  {
    if n > 0 {
      PutWordsAt(bp, at, ws, n - 1, j);
      WordOfSetWord(PutWords(bp, at, ws, n - 1), at + n - 1, ws[n - 1], j);
    }
  }

  /** n words of a block from word at on. */
  function GetWords(bp: Block, at: nat, n: nat): (ws: seq<word>)
    requires at + n <= WORDS
    ensures |ws| == n
    ensures forall i :: 0 <= i < n ==> ws[i] == Word(bp, at + i)
  {
    if n == 0 then [] else GetWords(bp, at, n - 1) + [Word(bp, at + n - 1)]
  }

  /** The k-th inode of a block. */
  function GetInode(bp: Block, k: nat): (ino: Inode)
    requires k < IPB
    ensures InodeOk(ino)
  {
    var at := 16 * k;
    var u, v := Word(bp, at), Word(bp, at + 1);
    Inode(u % 65536, u / 65536, v % 65536, v / 65536, Word(bp, at + 2), GetWords(bp, at + 3, NDIRECT + 1))
  }

  /** The block with its k-th inode replaced. */
  function PutInode(bp: Block, k: nat, ino: Inode): Block
    requires k < IPB && InodeOk(ino)
  {
    PutWords(bp, 16 * k, Fields(ino), 16)
  }

  lemma WordAt(bp: Block, k: nat, ino: Inode, l: nat, i: nat)
    requires k < IPB && l < IPB && InodeOk(ino) && i < 16
    ensures Word(PutInode(bp, k, ino), 16 * l + i) == if k == l then Fields(ino)[i] else Word(bp, 16 * l + i)
  {
    PutWordsAt(bp, 16 * k, Fields(ino), 16, 16 * l + i);
  }

  /** What iupdate stores, ilock loads again, and the other inodes of the block stay as they were. */
  lemma InodeRoundTrip(bp: Block, k: nat, ino: Inode, l: nat)
    requires k < IPB && l < IPB && InodeOk(ino)
    ensures GetInode(PutInode(bp, k, ino), l) == if k == l then ino else GetInode(bp, l)
  {
    hide Word, PutInode, GetWords;
    var at, b := 16 * l, PutInode(bp, k, ino);
    WordAt(bp, k, ino, l, 0);
    WordAt(bp, k, ino, l, 1);
    WordAt(bp, k, ino, l, 2);
    var got, want := GetInode(b, l).addrs, if k == l then ino.addrs else GetInode(bp, l).addrs;
    forall i | 0 <= i < NDIRECT + 1 ensures got[i] == want[i] {
      WordAt(bp, k, ino, l, 3 + i);
      assert got[i] == Word(b, at + 3 + i);
    }
    assert got == want;
  }
}
