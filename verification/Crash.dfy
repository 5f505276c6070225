/** The redo log seen from the disk alone: the block writes that a commit and a
    recovery issue, in order, and what survives when the machine stops between
    any two of them. */
module Crash {
  import opened Blocks

  const LOGSIZE: nat := MAXOPBLOCKS * 3

  /** One atomic block write. */
  datatype Write = Write(blk: nat, data: Block)

  /** Where the log lives: a header block at start, then size - 1 log blocks. */
  datatype Layout = Layout(start: nat, size: nat)

  predicate Home(lay: Layout, d: Disk, b: nat) {
    b < |d| && !(lay.start <= b < lay.start + lay.size)
  }

  predicate LayoutOk(lay: Layout, d: Disk) {
    lay.size >= 1 && lay.start + lay.size <= |d| <= 0x1_0000_0000
  }

  /** Two disks that agree on every block outside the log. */
  ghost predicate HomeEq(lay: Layout, d: Disk, e: Disk) {
    |d| == |e| && forall b: nat :: Home(lay, d, b) ==> d[b] == e[b]
  }

  // ----- the header block -----

  /** The block numbers recorded in a header block. */
  function ReadHead(h: Block): seq<nat>
    requires Word(h, 0) <= LOGSIZE
  {
    seq(Word(h, 0), i requires 0 <= i < Word(h, 0) => Word(h, i + 1))
  }

  predicate Entries(blocks: seq<nat>) {
    |blocks| <= LOGSIZE && forall i :: 0 <= i < |blocks| ==> blocks[i] < 0x1_0000_0000
  }

  /** Header block h after the count and the first k entries have been stored. */
  function PutEntries(h: Block, blocks: seq<nat>, k: nat): Block
    requires Entries(blocks) && k <= |blocks|
  {
    if k == 0 then SetWord(h, 0, |blocks|) else SetWord(PutEntries(h, blocks, k - 1), k, blocks[k - 1])
  }

  function PutHead(h: Block, blocks: seq<nat>): Block
    requires Entries(blocks)
  {
    PutEntries(h, blocks, |blocks|)
  }

  lemma {:induction false} PutEntriesWord(h: Block, blocks: seq<nat>, k: nat, j: nat)
    requires Entries(blocks) && k <= |blocks| && j < WORDS
    ensures Word(PutEntries(h, blocks, k), j)
         == if j == 0 then |blocks| else if j <= k then blocks[j - 1] else Word(h, j)
  {
    if k == 0 {
      WordOfSetWord(h, 0, |blocks|, j);
    } else {
      PutEntriesWord(h, blocks, k - 1, j);
      WordOfSetWord(PutEntries(h, blocks, k - 1), k, blocks[k - 1], j);
    }
  }

  /** What write_head stores, read_head gives back, whatever the block held before. */
  lemma HeadRoundTrip(h: Block, blocks: seq<nat>)
    requires Entries(blocks)
    ensures Word(PutHead(h, blocks), 0) == |blocks|
    ensures ReadHead(PutHead(h, blocks)) == blocks
  {
    PutEntriesWord(h, blocks, |blocks|, 0);
    forall i | 0 <= i < |blocks| ensures Word(PutHead(h, blocks), i + 1) == blocks[i] {
      PutEntriesWord(h, blocks, |blocks|, i + 1);
    }
  }

  // ----- sequences of writes -----

  predicate InRange(d: Disk, ws: seq<Write>) {
    forall i :: 0 <= i < |ws| ==> ws[i].blk < |d|
  }

  /** The disk after the writes ws, in order. */
  function Apply(d: Disk, ws: seq<Write>): (r: Disk)
    requires InRange(d, ws)
    ensures |r| == |d|
    decreases |ws|
  {
    if ws == [] then d else Apply(d[ws[0].blk := ws[0].data], ws[1..])
  }

  /** The value that block b holds after ws if it held x before. */
  function Final(ws: seq<Write>, b: nat, x: Block): Block {
    if ws == [] then x else Final(ws[1..], b, if ws[0].blk == b then ws[0].data else x)
  }

  predicate Touches(ws: seq<Write>, b: nat) {
    exists i :: 0 <= i < |ws| && ws[i].blk == b
  }

  lemma {:induction false} ApplyAt(d: Disk, ws: seq<Write>, b: nat)
    requires InRange(d, ws) && b < |d|
    ensures Apply(d, ws)[b] == Final(ws, b, d[b])
    decreases |ws|
  {
    if ws != [] {
      ApplyAt(d[ws[0].blk := ws[0].data], ws[1..], b);
    }
  }

  lemma {:induction false} ApplyConcat(d: Disk, a: seq<Write>, b: seq<Write>)
    requires InRange(d, a) && InRange(d, b)
    ensures InRange(d, a + b) && Apply(d, a + b) == Apply(Apply(d, a), b)
    decreases |a|
  {
    if a == [] {
      assert a + b == b;
    } else {
      assert (a + b)[1..] == a[1..] + b;
      ApplyConcat(d[a[0].blk := a[0].data], a[1..], b);
    }
  }

  lemma {:induction false} FinalUntouched(ws: seq<Write>, b: nat, x: Block)
    requires !Touches(ws, b)
    ensures Final(ws, b, x) == x
  {
    if ws != [] {
      assert ws[0].blk != b;
      assert forall i :: 0 <= i < |ws[1..]| ==> ws[1..][i] == ws[i + 1];
      FinalUntouched(ws[1..], b, x);
    }
  }

  lemma {:induction false} FinalTouched(ws: seq<Write>, b: nat, x: Block, y: Block)
    requires Touches(ws, b)
    ensures Final(ws, b, x) == Final(ws, b, y)
  {
    var i :| 0 <= i < |ws| && ws[i].blk == b;
    if i > 0 {
      assert ws[1..][i - 1].blk == b;
      if ws[0].blk != b {
        FinalTouched(ws[1..], b, x, y);
      }
    }
  }

  /** Redoing a list of writes after any prefix of it has the effect of doing it once. */
  lemma ApplyTwice(d: Disk, ws: seq<Write>, k: nat)
    requires InRange(d, ws) && k <= |ws|
    ensures Apply(Apply(d, ws[..k]), ws) == Apply(d, ws)
  {
    var e := Apply(d, ws[..k]);
    forall b | 0 <= b < |d| ensures Apply(e, ws)[b] == Apply(d, ws)[b] {
      ApplyAt(d, ws[..k], b);
      ApplyAt(e, ws, b);
      ApplyAt(d, ws, b);
      if Touches(ws, b) {
        FinalTouched(ws, b, e[b], d[b]);
      } else {
        FinalUntouched(ws[..k], b, d[b]);
      }
    }
  }

  // ----- the log area -----

  /** The on-disk log is readable: its entries fit the log area and name home blocks. */
  predicate LogOk(lay: Layout, d: Disk) {
    && LayoutOk(lay, d)
    && var h := d[lay.start];
    && Word(h, 0) <= LOGSIZE
    && Word(h, 0) < lay.size
    && forall i :: 0 <= i < Word(h, 0) ==> Home(lay, d, ReadHead(h)[i])
  }

  predicate LogEmpty(lay: Layout, d: Disk) {
    LayoutOk(lay, d) && Word(d[lay.start], 0) == 0
  }

  /** The writes of install_trans for the given entries, reading the log blocks of d. */
  function InstallWrites(lay: Layout, d: Disk, blocks: seq<nat>): (ws: seq<Write>)
    requires lay.start + |blocks| < |d|
    ensures |ws| == |blocks|
  {
    seq(|blocks|, k requires 0 <= k < |blocks| => Write(blocks[k], d[lay.start + 1 + k]))
  }

  function ClearWrite(lay: Layout, h: Block): Write {
    Write(lay.start, PutHead(h, []))
  }

  /** All writes of recover_from_log started on disk d. */
  function RecoverWrites(lay: Layout, d: Disk): seq<Write>
    requires LogOk(lay, d)
  {
    InstallWrites(lay, d, ReadHead(d[lay.start])) + [ClearWrite(lay, d[lay.start])]
  }

  lemma RecoverInRange(lay: Layout, d: Disk)
    requires LogOk(lay, d)
    ensures InRange(d, RecoverWrites(lay, d))
  {
  }

  /** The disk after one complete recovery. */
  function Recovered(lay: Layout, d: Disk): Disk
    requires LogOk(lay, d)
  {
    RecoverInRange(lay, d);
    Apply(d, RecoverWrites(lay, d))
  }

  /** The disk when a recovery is cut after k block writes. */
  function CutRecovery(lay: Layout, d: Disk, k: nat): Disk
    requires LogOk(lay, d)
  {
    RecoverInRange(lay, d);
    var ws := RecoverWrites(lay, d);
    Apply(d, if k <= |ws| then ws[..k] else ws)
  }

  /** Installing touches no block of the log area. */
  lemma CutKeepsLog(lay: Layout, d: Disk, k: nat)
    requires LogOk(lay, d) && k < |RecoverWrites(lay, d)|
    ensures forall b :: lay.start <= b < lay.start + lay.size ==> CutRecovery(lay, d, k)[b] == d[b]
  {
    RecoverInRange(lay, d);
    var ws := RecoverWrites(lay, d);
    forall b | lay.start <= b < lay.start + lay.size ensures CutRecovery(lay, d, k)[b] == d[b] {
      ApplyAt(d, ws[..k], b);
      forall i | 0 <= i < k ensures ws[..k][i].blk != b {
        assert Home(lay, d, ReadHead(d[lay.start])[i]);
      }
      FinalUntouched(ws[..k], b, d[b]);
    }
  }

  /** A complete recovery leaves an empty log. */
  lemma RecoveredEmpty(lay: Layout, d: Disk)
    requires LogOk(lay, d)
    ensures LogEmpty(lay, Recovered(lay, d)) && LogOk(lay, Recovered(lay, d))
    ensures Recovered(lay, d)[lay.start] == PutHead(d[lay.start], [])
  {
    RecoverInRange(lay, d);
    var ws := RecoverWrites(lay, d);
    var n := |ws| - 1;
    assert ws == ws[..n] + [ws[n]];
    ApplyConcat(d, ws[..n], [ws[n]]);
    HeadRoundTrip(d[lay.start], []);
  }

  /** Recovery may stop after any of its writes: running it again from there
      ends on exactly the disk that the uninterrupted recovery produces. */
  lemma RecoveryCut(lay: Layout, d: Disk, k: nat)
    requires LogOk(lay, d)
    ensures LogOk(lay, CutRecovery(lay, d, k))
    ensures Recovered(lay, CutRecovery(lay, d, k)) == Recovered(lay, d)
  {
    RecoverInRange(lay, d);
    var ws := RecoverWrites(lay, d);
    var e := CutRecovery(lay, d, k);
    if k < |ws| {
      CutKeepsLog(lay, d, k);
      var blocks := ReadHead(d[lay.start]);
      assert e[lay.start] == d[lay.start];
      forall i | 0 <= i < |blocks| ensures Home(lay, e, blocks[i]) {
        assert Home(lay, d, blocks[i]);
      }
      assert RecoverWrites(lay, e) == ws;
      ApplyTwice(d, ws, k);
    } else {
      assert ws[..|ws|] == ws;
      RecoveredEmpty(lay, d);
      RecoverNothing(lay, e);
      ClearTwice(d[lay.start]);
    }
  }

  /** With an empty log recovery only rewrites the header. */
  lemma RecoverNothing(lay: Layout, d: Disk)
    requires LogEmpty(lay, d)
    ensures LogOk(lay, d)
    ensures Recovered(lay, d) == d[lay.start := PutHead(d[lay.start], [])]
  {
    RecoverInRange(lay, d);
    var ws := RecoverWrites(lay, d);
    var w := ClearWrite(lay, d[lay.start]);
    assert ws == [w];
    assert Apply(d, [w]) == Apply(d[w.blk := w.data], []);
  }

  lemma ClearTwice(h: Block)
    ensures PutHead(PutHead(h, []), []) == PutHead(h, [])
  {
  }

  /** Recoveries cut short after cuts[0], cuts[1], ... writes, one after another. */
  function CutAll(lay: Layout, d: Disk, cuts: seq<nat>): (r: Disk)
    requires LogOk(lay, d)
    ensures LogOk(lay, r) && |r| == |d|
    decreases |cuts|
  {
    if cuts == [] then d
    else
      RecoveryCut(lay, d, cuts[0]);
      CutAll(lay, CutRecovery(lay, d, cuts[0]), cuts[1..])
  }

  /** However often recovery itself is interrupted, the first complete one ends on the same disk. */
  lemma {:induction false} RecoveryCutManyTimes(lay: Layout, d: Disk, cuts: seq<nat>)
    requires LogOk(lay, d)
    ensures Recovered(lay, CutAll(lay, d, cuts)) == Recovered(lay, d)
    decreases |cuts|
  {
    if cuts != [] {
      RecoveryCut(lay, d, cuts[0]);
      RecoveryCutManyTimes(lay, CutRecovery(lay, d, cuts[0]), cuts[1..]);
    }
  }

  // ----- commit -----

  predicate Distinct(blocks: seq<nat>) {
    forall i, j :: 0 <= i < j < |blocks| ==> blocks[i] != blocks[j]
  }

  /** A transaction that log_write admits: distinct home blocks that fit the log. */
  predicate TxOk(lay: Layout, d: Disk, blocks: seq<nat>) {
    && LayoutOk(lay, d)
    && |blocks| <= LOGSIZE
    && |blocks| < lay.size
    && Distinct(blocks)
    && forall i :: 0 <= i < |blocks| ==> Home(lay, d, blocks[i])
  }

  /** The writes of write_log, copying the new contents into the log area. */
  function LogWrites(lay: Layout, contents: seq<Block>): seq<Write> {
    seq(|contents|, k requires 0 <= k < |contents| => Write(lay.start + 1 + k, contents[k]))
  }

  /** The writes of write_log and the first write_head. */
  function CommitPoint(lay: Layout, h: Block, blocks: seq<nat>, contents: seq<Block>): seq<Write>
    requires Entries(blocks)
  {
    LogWrites(lay, contents) + [Write(lay.start, PutHead(h, blocks))]
  }

  /** The writes of install_trans, in terms of the contents. */
  function HomeWrites(blocks: seq<nat>, contents: seq<Block>): seq<Write>
    requires |contents| == |blocks|
  {
    seq(|blocks|, k requires 0 <= k < |blocks| => Write(blocks[k], contents[k]))
  }

  /** The writes of install_trans and the second write_head. */
  function Installs(lay: Layout, h: Block, blocks: seq<nat>, contents: seq<Block>): seq<Write>
    requires Entries(blocks) && |contents| == |blocks|
  {
    HomeWrites(blocks, contents) + [ClearWrite(lay, PutHead(h, blocks))]
  }

  lemma TxEntries(lay: Layout, d: Disk, blocks: seq<nat>)
    requires TxOk(lay, d, blocks)
    ensures Entries(blocks)
  {
  }

  /** Every write of commit, in order; nothing is written for an empty transaction. */
  function CommitWrites(lay: Layout, d: Disk, blocks: seq<nat>, contents: seq<Block>): (ws: seq<Write>)
    requires TxOk(lay, d, blocks) && |contents| == |blocks|
    ensures InRange(d, ws)
  {
    TxEntries(lay, d, blocks);
    if blocks == [] then []
    else
      assert forall k :: 0 <= k < |blocks| ==> Home(lay, d, blocks[k]);
      CommitPoint(lay, d[lay.start], blocks, contents) + Installs(lay, d[lay.start], blocks, contents)
  }

  /** The disk just after the commit point: the log holds the whole transaction
      and no home block has changed. */
  function Committed(lay: Layout, d: Disk, blocks: seq<nat>, contents: seq<Block>): Disk
    requires TxOk(lay, d, blocks) && |contents| == |blocks|
  {
    TxEntries(lay, d, blocks);
    Apply(d, CommitPoint(lay, d[lay.start], blocks, contents))
  }

  lemma {:induction false} LogWritesAt(lay: Layout, d: Disk, contents: seq<Block>, k: nat, b: nat)
    requires LayoutOk(lay, d) && k <= |contents| < lay.size && b < |d|
    ensures InRange(d, LogWrites(lay, contents)[..k])
    ensures Apply(d, LogWrites(lay, contents)[..k])[b]
         == if lay.start < b <= lay.start + k then contents[b - lay.start - 1] else d[b]
  {
    var ws := LogWrites(lay, contents);
    if k > 0 {
      assert ws[..k] == ws[..k - 1] + [ws[k - 1]];
      ApplyConcat(d, ws[..k - 1], [ws[k - 1]]);
      LogWritesAt(lay, d, contents, k - 1, b);
    }
  }

  lemma CommittedAt(lay: Layout, d: Disk, blocks: seq<nat>, contents: seq<Block>, b: nat)
    requires TxOk(lay, d, blocks) && |contents| == |blocks| && b < |d|
    ensures Committed(lay, d, blocks, contents)[b]
         == if b == lay.start then (TxEntries(lay, d, blocks); PutHead(d[lay.start], blocks))
            else if lay.start < b <= lay.start + |blocks| then contents[b - lay.start - 1] else d[b]
  {
    TxEntries(lay, d, blocks);
    var ws := LogWrites(lay, contents);
    assert ws[..|contents|] == ws;
    LogWritesAt(lay, d, contents, |contents|, b);
    ApplyConcat(d, ws, [Write(lay.start, PutHead(d[lay.start], blocks))]);
  }

  /** Past the commit point what remains of commit is word for word a recovery. */
  lemma RestOfCommitIsRecovery(lay: Layout, d: Disk, blocks: seq<nat>, contents: seq<Block>)
    requires TxOk(lay, d, blocks) && |contents| == |blocks|
    ensures LogOk(lay, Committed(lay, d, blocks, contents))
    ensures Entries(blocks)
    ensures RecoverWrites(lay, Committed(lay, d, blocks, contents)) == Installs(lay, d[lay.start], blocks, contents)
  {
    TxEntries(lay, d, blocks);
    var e := Committed(lay, d, blocks, contents);
    hide Committed, PutHead, ReadHead, Word;
    CommittedAt(lay, d, blocks, contents, lay.start);
    HeadRoundTrip(d[lay.start], blocks);
    forall i | 0 <= i < |blocks| ensures Home(lay, e, blocks[i]) && e[lay.start + 1 + i] == contents[i] {
      assert Home(lay, d, blocks[i]);
      CommittedAt(lay, d, blocks, contents, lay.start + 1 + i);
    }
    assert ReadHead(e[lay.start]) == blocks;
  }

  /** Disk d with the transaction's contents in their home blocks. */
  ghost predicate Updated(lay: Layout, d: Disk, blocks: seq<nat>, contents: seq<Block>, e: Disk)
    requires TxOk(lay, d, blocks) && |contents| == |blocks|
  {
    && |e| == |d|
    && (forall i :: 0 <= i < |blocks| ==> Home(lay, d, blocks[i]) && e[blocks[i]] == contents[i])
    && forall b: nat :: Home(lay, d, b) && b !in blocks ==> e[b] == d[b]
  }

  lemma {:induction false} FinalDistinct(blocks: seq<nat>, contents: seq<Block>, ws: seq<Write>, i: nat, x: Block)
    requires |blocks| == |contents| == |ws| && Distinct(blocks) && i < |blocks|
    requires forall k :: 0 <= k < |ws| ==> ws[k] == Write(blocks[k], contents[k])
    ensures Final(ws, blocks[i], x) == contents[i]
  {
    if i == 0 {
      assert forall k :: 0 <= k < |ws[1..]| ==> ws[1..][k].blk == blocks[k + 1] != blocks[0];
      FinalUntouched(ws[1..], blocks[0], contents[0]);
    } else {
      FinalDistinct(blocks[1..], contents[1..], ws[1..], i - 1, x);
    }
  }

  /** Writing the contents home, and then the header, to a disk that agrees with d on the home blocks. */
  lemma InstalledAll(lay: Layout, d: Disk, e: Disk, blocks: seq<nat>, contents: seq<Block>, last: Write)
    requires TxOk(lay, d, blocks) && |contents| == |blocks| && |e| == |d| && last.blk == lay.start
    requires forall b: nat :: Home(lay, d, b) ==> e[b] == d[b]
    ensures InRange(e, HomeWrites(blocks, contents) + [last])
    ensures Updated(lay, d, blocks, contents, Apply(e, HomeWrites(blocks, contents) + [last]))
  {
    var hw := HomeWrites(blocks, contents);
    var r := Apply(e, hw + [last]);
    ApplyConcat(e, hw, [last]);
    forall i | 0 <= i < |blocks| ensures r[blocks[i]] == contents[i] {
      assert Home(lay, d, blocks[i]);
      ApplyAt(e, hw, blocks[i]);
      FinalDistinct(blocks, contents, hw, i, e[blocks[i]]);
    }
    forall b: nat | Home(lay, d, b) && b !in blocks ensures r[b] == d[b] {
      ApplyAt(e, hw, b);
      FinalUntouched(hw, b, e[b]);
    }
  }

  /** Recovery from the commit point installs the whole transaction and nothing else. */
  lemma RecoveredInstallsAll(lay: Layout, d: Disk, blocks: seq<nat>, contents: seq<Block>)
    requires TxOk(lay, d, blocks) && |contents| == |blocks|
    ensures LogOk(lay, Committed(lay, d, blocks, contents))
    ensures Updated(lay, d, blocks, contents, Recovered(lay, Committed(lay, d, blocks, contents)))
  {
    RestOfCommitIsRecovery(lay, d, blocks, contents);
    var e, hw := Committed(lay, d, blocks, contents), HomeWrites(blocks, contents);
    var ws := RecoverWrites(lay, e);
    RecoverInRange(lay, e);
    assert ws == hw + [ws[|hw|]] && ws[|hw|].blk == lay.start;
    forall b: nat | Home(lay, d, b) ensures e[b] == d[b] {
      CommittedAt(lay, d, blocks, contents, b);
    }
    assert |e| == |d| && Recovered(lay, e) == Apply(e, hw + [ws[|hw|]]);
    hide Committed, RecoverWrites, Recovered, LogOk, TxOk;
    InstalledAll(lay, d, e, blocks, contents, ws[|hw|]);
  }

  /** The disk when the machine stops after the first k block writes of commit. */
  function CutCommit(lay: Layout, d: Disk, blocks: seq<nat>, contents: seq<Block>, k: nat): (e: Disk)
    requires TxOk(lay, d, blocks) && |contents| == |blocks|
    ensures |e| == |d|
  {
    var ws := CommitWrites(lay, d, blocks, contents);
    Apply(d, if k <= |ws| then ws[..k] else ws)
  }

  /** Has the header naming the transaction reached the disk after k writes? */
  predicate PastCommitPoint(blocks: seq<nat>, k: nat) {
    blocks != [] && k > |blocks|
  }

  lemma CutBeforeCommitPoint(lay: Layout, d: Disk, blocks: seq<nat>, contents: seq<Block>, k: nat)
    requires LogEmpty(lay, d) && TxOk(lay, d, blocks) && |contents| == |blocks|
    requires !PastCommitPoint(blocks, k)
    ensures LogEmpty(lay, CutCommit(lay, d, blocks, contents, k))
    ensures HomeEq(lay, d, CutCommit(lay, d, blocks, contents, k))
  {
    if blocks != [] {
      TxEntries(lay, d, blocks);
      assert CommitWrites(lay, d, blocks, contents)[..k] == LogWrites(lay, contents)[..k];
      forall b | 0 <= b < |d|
        ensures CutCommit(lay, d, blocks, contents, k)[b]
             == if lay.start < b <= lay.start + k then contents[b - lay.start - 1] else d[b]
      {
        LogWritesAt(lay, d, contents, k, b);
      }
    }
  }

  lemma CutConcat(a: seq<Write>, b: seq<Write>, k: nat)
    requires k >= |a|
    ensures (if k <= |a + b| then (a + b)[..k] else a + b) == a + if k - |a| <= |b| then b[..k - |a|] else b
  {
  }

  lemma CutAfterCommitPoint(lay: Layout, d: Disk, blocks: seq<nat>, contents: seq<Block>, k: nat)
    requires TxOk(lay, d, blocks) && |contents| == |blocks| && PastCommitPoint(blocks, k)
    ensures LogOk(lay, Committed(lay, d, blocks, contents))
    ensures CutCommit(lay, d, blocks, contents, k)
         == CutRecovery(lay, Committed(lay, d, blocks, contents), k - |blocks| - 1)
  {
    TxEntries(lay, d, blocks);
    RestOfCommitIsRecovery(lay, d, blocks, contents);
    var e := Committed(lay, d, blocks, contents);
    RecoverInRange(lay, e);
    var ws := CommitWrites(lay, d, blocks, contents);
    var a := CommitPoint(lay, d[lay.start], blocks, contents);
    var b := Installs(lay, d[lay.start], blocks, contents);
    var j := k - |blocks| - 1;
    var b' := if j <= |b| then b[..j] else b;
    CutConcat(a, b, k);
    hide Apply, Committed, TxOk, LogOk, Installs, CommitPoint, RecoverWrites, InRange;
    ApplyConcat(d, a, b');
  }

  lemma RecoveredAfterCut(lay: Layout, d: Disk, blocks: seq<nat>, contents: seq<Block>, k: nat)
    requires LogEmpty(lay, d) && TxOk(lay, d, blocks) && |contents| == |blocks|
    ensures LogOk(lay, CutCommit(lay, d, blocks, contents, k))
    ensures PastCommitPoint(blocks, k) ==>
              Updated(lay, d, blocks, contents, Recovered(lay, CutCommit(lay, d, blocks, contents, k)))
    ensures !PastCommitPoint(blocks, k) ==>
              HomeEq(lay, d, Recovered(lay, CutCommit(lay, d, blocks, contents, k)))
  {
    hide CutCommit, Recovered, Updated, Committed, CutRecovery, TxOk;
    if PastCommitPoint(blocks, k) {
      CutAfterCommitPoint(lay, d, blocks, contents, k);
      RecoveryCut(lay, Committed(lay, d, blocks, contents), k - |blocks| - 1);
      RecoveredInstallsAll(lay, d, blocks, contents);
    } else {
      CutBeforeCommitPoint(lay, d, blocks, contents, k);
      RecoverNothing(lay, CutCommit(lay, d, blocks, contents, k));
    }
  }

  /** Crash atomicity of one commit. Stop the machine after any number k of its
      block writes, interrupt any number of recoveries after any of theirs; the
      next complete recovery leaves either no update of the transaction or all
      of them, decided by the single write of the header. */
  lemma CommitIsAtomic(lay: Layout, d: Disk, blocks: seq<nat>, contents: seq<Block>, k: nat, cuts: seq<nat>)
    requires LogEmpty(lay, d) && TxOk(lay, d, blocks) && |contents| == |blocks|
    ensures LogOk(lay, CutCommit(lay, d, blocks, contents, k))
    ensures var after := Recovered(lay, CutAll(lay, CutCommit(lay, d, blocks, contents, k), cuts));
            && LogEmpty(lay, after)
            && if PastCommitPoint(blocks, k) then Updated(lay, d, blocks, contents, after) else HomeEq(lay, d, after)
  {
    RecoveredAfterCut(lay, d, blocks, contents, k);
    var e := CutCommit(lay, d, blocks, contents, k);
    RecoveryCutManyTimes(lay, e, cuts);
    RecoveredEmpty(lay, e);
  }
}
