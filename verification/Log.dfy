/** The log layer: group commit of file-system calls over the buffer cache. Every
    method that writes the disk says which block writes it has issued, in order,
    whether it completes or stops in the middle (bget found no buffer, a panic). */
module Log {
  import opened Common
  import opened Blocks
  import opened Crash
  import opened CrashRuns
  import opened BufferCache
  import opened Coherence
  import opened Reservation

  /** From disk d and trace t the first k of the writes ws have been issued. */
  ghost predicate Issued(d: Disk, t: seq<Write>, d': Disk, t': seq<Write>, ws: seq<Write>, k: nat) {
    && k <= |ws|
    && InRange(d, ws)
    && t' == t + ws[..k]
    && d' == Apply(d, ws[..k])
  }

  /** Some of the writes ws have been issued, in order. */
  ghost predicate SomeIssued(d: Disk, t: seq<Write>, d': Disk, t': seq<Write>, ws: seq<Write>) {
    exists k :: Issued(d, t, d', t', ws, k)
  }

  lemma IssuedNext(d: Disk, t: seq<Write>, d': Disk, t': seq<Write>, ws: seq<Write>, k: nat)
    requires Issued(d, t, d', t', ws, k) && k < |ws|
    ensures ws[k].blk < |d'|
    ensures Issued(d, t, d'[ws[k].blk := ws[k].data], t' + [ws[k]], ws, k + 1)
  {
    assert ws[..k + 1] == ws[..k] + [ws[k]];
    ApplyConcat(d, ws[..k], [ws[k]]);
    assert Apply(d', [ws[k]]) == Apply(d'[ws[k].blk := ws[k].data], []);
  }

  /** Issuing the first m writes of ws and then some of the next ones. */
  lemma IssuedThen(d: Disk, t: seq<Write>, d1: Disk, t1: seq<Write>, d2: Disk, t2: seq<Write>,
                   ws: seq<Write>, m: nat, b: seq<Write>, k: nat)
    requires Issued(d, t, d1, t1, ws, m) && Issued(d1, t1, d2, t2, b, k)
    requires m + |b| <= |ws| && ws[m..m + |b|] == b
    ensures Issued(d, t, d2, t2, ws, m + k)
  {
    assert ws[..m + k] == ws[..m] + b[..k];
    ApplyConcat(d, ws[..m], b[..k]);
  }

  lemma SomeThen(d: Disk, t: seq<Write>, d1: Disk, t1: seq<Write>, d2: Disk, t2: seq<Write>,
                 ws: seq<Write>, m: nat, b: seq<Write>)
    requires Issued(d, t, d1, t1, ws, m) && SomeIssued(d1, t1, d2, t2, b)
    requires m + |b| <= |ws| && ws[m..m + |b|] == b
    ensures SomeIssued(d, t, d2, t2, ws)
  {
    var k :| Issued(d1, t1, d2, t2, b, k);
    IssuedThen(d, t, d1, t1, d2, t2, ws, m, b, k);
  }

  /** The four stretches of a commit. */
  lemma CommitShape(lay: Layout, d: Disk, blocks: seq<nat>, contents: seq<Block>)
    requires TxOk(lay, d, blocks) && |contents| == |blocks| && blocks != []
    ensures Entries(blocks)
    ensures var ws, n := CommitWrites(lay, d, blocks, contents), |blocks|;
            && |ws| == 2 * n + 2
            && ws[0..0 + n] == LogWrites(lay, contents)
            && ws[n] == Write(lay.start, PutHead(d[lay.start], blocks))
            && ws[n + 1..n + 1 + n] == HomeWrites(blocks, contents)
            && ws[2 * n + 1] == ClearWrite(lay, PutHead(d[lay.start], blocks))
  {
  }

  lemma IssuedNone(d: Disk, t: seq<Write>, ws: seq<Write>)
    requires InRange(d, ws)
    ensures Issued(d, t, d, t, ws, 0)
  {
  }

  lemma TxWith(lay: Layout, d: Disk, lh: seq<nat>, blk: nat)
    requires TxOk(lay, d, lh) && Home(lay, d, blk) && |lh| < LOGSIZE && |lh| < lay.size - 1
    ensures TxOk(lay, d, Absorb(lh, blk))
  {
  }

  /** The header entries and the logical disk are what the updates us make of disk d. */
  ghost predicate Tracks(d: Disk, us: seq<Write>, lh: seq<nat>, logical: Disk) {
    InRange(d, us) && Logged(us) == lh && Apply(d, us) == logical
  }

  lemma TracksNone(d: Disk)
    ensures Tracks(d, [], [], d)
  {
  }

  lemma TxNone(lay: Layout, d: Disk)
    requires LayoutOk(lay, d)
    ensures TxOk(lay, d, [])
  {
  }

  lemma InBounds(lay: Layout, d: Disk, lh: seq<nat>)
    requires TxOk(lay, d, lh)
    ensures forall k :: 0 <= k < |lh| ==> lh[k] < |d|
  {
  }

  lemma TracksNext(d: Disk, us: seq<Write>, lh: seq<nat>, logical: Disk, w: Write)
    requires Tracks(d, us, lh, logical) && w.blk < |d|
    ensures Tracks(d, us + [w], Absorb(lh, w.blk), logical[w.blk := w.data])
  {
    assert (us + [w])[..|us|] == us;
    ApplyConcat(d, us, [w]);
    assert Apply(logical, [w]) == Apply(logical[w.blk := w.data], []);
  }

  lemma TracksContents(d: Disk, us: seq<Write>, lh: seq<nat>, logical: Disk, c: seq<Block>)
    requires Tracks(d, us, lh, logical) && |c| == |lh|
    requires forall k :: 0 <= k < |lh| ==> lh[k] < |logical| && c[k] == logical[lh[k]]
    ensures InRange(d, us) && Logged(us) == lh && Contents(d, us) == c
  {
  }

  /** What a process outside the transaction can do to the buffers while a commit runs. */
  datatype Act = Bread(blk: nat) | Brelse(b: nat)

  /** What happens before each round of a commit. */
  type Env = nat -> seq<Act>

  class Log {
    const bc: Cache
    const lay: Layout
    var outstanding: nat
    var committing: bool
    var lh: seq<nat>

    // the contents every reader must see
    ghost var logical: Disk
    // the logged blocks not yet written home, and the buffers that pin them
    ghost var queue: seq<nat>
    ghost var pins: seq<nat>
    // the buffers changed but not yet logged
    ghost var dirty: set<nat>
    // the blocks each call in progress has logged
    ghost var ops: seq<set<nat>>
    // every update logged since the last commit
    ghost var updates: seq<Write>

    /** Cache, queue and logical disk agree. */
    ghost predicate Sound()
      reads this, bc
    {
      && bc.Valid() && |bc.bufs| == NBUF && LayoutOk(lay, bc.disk) && |logical| == |bc.disk|
      && Coherent(bc.disk, bc.bufs, logical, queue, pins, dirty)
    }

    ghost predicate Valid()
      reads this, bc
    {
      && Sound() && queue == lh && TxOk(lay, bc.disk, lh)
      && LogEmpty(lay, bc.disk)
      && Reserved(Room())
      && Tracks(bc.disk, updates, lh, logical)
    }

    /** Nobody holds a block of the log area, which only commit and recovery read. */
    ghost predicate AreaFree()
      reads this, bc
    {
      forall i :: 0 <= i < |bc.bufs| && bc.bufs[i].locked ==> !(lay.start <= bc.bufs[i].blockno < lay.start + lay.size)
    }

    /** The run goes no further: every buffer is in use, or somebody else holds a block of the transaction. */
    ghost predicate Stuck()
      reads this, bc
    {
      bc.Exhausted() || exists i :: 0 <= i < |bc.bufs| && bc.bufs[i].locked && bc.bufs[i].blockno in lh
    }

    ghost function Room(): Space
      reads this
    {
      Space(lh, outstanding, committing, ops)
    }

    /** The contents of the given blocks on the logical disk. */
    ghost function ContentsOf(blocks: seq<nat>): (c: seq<Block>)
      requires forall k :: 0 <= k < |blocks| ==> blocks[k] < |logical|
      reads this
      ensures |c| == |blocks|
    {
      var l := logical;
      seq(|blocks|, k requires 0 <= k < |blocks| && blocks[k] < |l| => l[blocks[k]])
    }

    /** The log layer before recovery: an empty cache over disk d. */
    constructor (d: Disk, lay: Layout)
      requires LayoutOk(lay, d)
      ensures Sound() && fresh(bc) && this.lay == lay && bc.disk == d && bc.trace == [] && logical == d
      ensures lh == queue == [] && ops == [] && updates == [] && outstanding == 0 && !committing && dirty == {}
      ensures AreaFree()
    {
      this.bc := new Cache(d);
      this.lay := lay;
      outstanding, committing, lh := 0, false, [];
      logical, queue, pins, dirty, ops, updates := d, [], [], {}, [], [];
    }

    // ----- what file-system calls do -----

    /** begin_op; false means the call goes to sleep. */
    method BeginOp() returns (admitted: bool)
      requires Valid()
      modifies this`outstanding, this`ops
      ensures Valid()
      ensures admitted <==> !committing && |lh| + (old(outstanding) + 1) * MAXOPBLOCKS <= LOGSIZE
      ensures admitted ==> ops == old(ops) + [{}]
      ensures !admitted ==> ops == old(ops) && outstanding == old(outstanding)
    {
      if committing {
        return false;
      } else if |lh| + (outstanding + 1) * MAXOPBLOCKS > LOGSIZE {
        return false;
      } else {
        StepKeepsReserved(Room(), Begin, lay.size);
        outstanding := outstanding + 1;
        ops := ops + [{}];
        return true;
      }
    }

    /** bread under the log discipline: the buffer shows the logical contents of the block. */
    method Read(blk: nat) returns (r: Got)
      requires Sound() && blk < |bc.disk|
      modifies bc`bufs
      ensures Sound()
      ensures r.Buffer? ==> r.value < NBUF && Holds(bc.bufs[r.value], 1, blk) && bc.bufs[r.value].valid && bc.bufs[r.value].locked
      ensures r.Buffer? ==> bc.bufs[r.value].data == logical[blk] && r.value !in dirty
      ensures r.Buffer? ==> bc.bufs == old(bc.bufs)[r.value := bc.bufs[r.value]] && !old(bc.bufs[r.value].locked)
      ensures r.Busy? ==> bc.bufs == old(bc.bufs) && !bc.Available(blk)
      ensures r.NoBuffer? ==> bc.bufs == old(bc.bufs) && bc.Exhausted()
    {
      ghost var before := bc.bufs;
      r := bc.BRead(blk);
      if r.Buffer? {
        ReadSeesLogical(bc.disk, before, logical, queue, pins, dirty, bc.bufs, r.value, blk);
        assert BufOk(before[r.value], r.value in dirty, r.value in pins, logical);
      }
    }

    /** The holder changes its buffer. */
    method Change(b: nat, x: Block)
      requires Sound() && b < NBUF && bc.bufs[b].locked && bc.bufs[b].valid
      modifies bc`bufs, this`dirty
      ensures Sound() && dirty == old(dirty) + {b}
      ensures bc.bufs == old(bc.bufs)[b := old(bc.bufs[b]).(data := x)]
    {
      ChangeIsDirty(bc.disk, bc.bufs, logical, queue, pins, dirty, b, x);
      bc.SetData(b, x);
      dirty := dirty + {b};
    }

    /** brelse under the log discipline: changed buffers are logged first. */
    method Release(b: nat)
      requires Sound() && b < NBUF && bc.bufs[b].locked && b !in dirty
      modifies bc
      ensures Sound() && bc.disk == old(bc.disk) && bc.trace == old(bc.trace)
      ensures bc.bufs == old(bc.bufs)[b := old(bc.bufs[b]).(refcnt := old(bc.bufs[b].refcnt) - 1, locked := false)]
    {
      ReleaseKeeps(bc.disk, bc.bufs, logical, queue, pins, dirty, b);
      bc.BRelse(b);
    }

    /** The absorption scan of log_write. */
    method FindEntry(blk: nat) returns (i: nat)
      ensures i <= |lh| && blk !in lh[..i]
      ensures i < |lh| ==> lh[i] == blk
    {
      i := 0;
      while i < |lh| && lh[i] != blk
        invariant 0 <= i <= |lh| && blk !in lh[..i]
      {
        i := i + 1;
      }
    }

    /** log_write on behalf of the op-th outstanding call; false is the panic "too big a transaction". */
    method LogWrite(op: nat, b: nat) returns (ok: bool)
      requires Valid() && op < |ops| && b < NBUF && bc.bufs[b].locked && bc.bufs[b].valid
      requires Home(lay, bc.disk, bc.bufs[b].blockno)
      requires |ops[op] + {bc.bufs[b].blockno}| <= MAXOPBLOCKS
      modifies this`lh, this`logical, this`queue, this`pins, this`dirty, this`ops, this`updates, bc`bufs
      ensures ok <==> old(|lh|) < LOGSIZE && old(|lh|) < lay.size - 1
      ensures lay.size > LOGSIZE && old(|ops[op]|) < MAXOPBLOCKS ==> ok
      ensures Valid()
      ensures ok ==> lh == Absorb(old(lh), old(bc.bufs[b].blockno))
      ensures ok ==> logical == old(logical)[old(bc.bufs[b].blockno) := old(bc.bufs[b].data)]
      ensures updates == old(updates) + if ok then [Write(old(bc.bufs[b].blockno), old(bc.bufs[b].data))] else []
      ensures ok ==> dirty == old(dirty) - {b} && ops == old(ops)[op := old(ops[op]) + {old(bc.bufs[b].blockno)}]
      ensures ok ==> bc.bufs == PinIfNew(old(bc.bufs), b, old(lh))
      ensures !ok ==> lh == old(lh) && logical == old(logical) && bc.bufs == old(bc.bufs) && ops == old(ops)
    {
      hide Coherent, ListOk, BufsOk, Reserved, TxOk, Tracks;
      if |ops[op]| < MAXOPBLOCKS {
        RoomForAllowance(Room(), op, lay.size);
      }
      if |lh| >= LOGSIZE || |lh| >= lay.size - 1 {
        return false;
      }
      InProgress(Room(), op);
      if outstanding < 1 { // panic
        assert false;
      }
      var blk := bc.bufs[b].blockno;
      StepKeepsReserved(Room(), Reservation.LogWrite(op, blk), lay.size);
      TxWith(lay, bc.disk, lh, blk);
      TracksNext(bc.disk, updates, lh, logical, Write(blk, bc.bufs[b].data));
      updates := updates + [Write(blk, bc.bufs[b].data)];
      Record(b);
      ops := ops[op := ops[op] + {blk}];
      return true;
    }

    /** The second half of log_write: record the block, and pin it if it is new. */
    method Record(b: nat)
      requires Sound() && queue == lh && b < NBUF && bc.bufs[b].locked && bc.bufs[b].valid && bc.bufs[b].blockno < |logical|
      modifies this`lh, this`logical, this`queue, this`pins, this`dirty, bc`bufs
      ensures Sound() && queue == lh == Absorb(old(lh), old(bc.bufs[b].blockno))
      ensures logical == old(logical)[old(bc.bufs[b].blockno) := old(bc.bufs[b].data)]
      ensures dirty == old(dirty) - {b}
      ensures bc.bufs == PinIfNew(old(bc.bufs), b, old(lh))
    {
      hide Coherent, ListOk, BufsOk;
      var blk := bc.bufs[b].blockno;
      var i := FindEntry(blk);
      if i == |lh| {
        assert lh[..i] == lh;
        LogFirst(bc.disk, bc.bufs, logical, queue, pins, dirty, b);
        bc.BPin(b);
        lh := lh + [blk];
        queue, pins := queue + [blk], pins + [b];
      } else {
        LogAgain(bc.disk, bc.bufs, logical, queue, pins, dirty, b);
        lh := lh[i := blk];
      }
      logical := logical[blk := bc.bufs[b].data];
      dirty := dirty - {b};
    }

    // ----- commit -----

    /** What others do between two rounds of a commit, while it waits for its buffers: they read blocks and
        let go of them. */
    method Others(acts: seq<Act>)
      requires Sound() && AreaFree() && dirty == {}
      modifies bc
      ensures Sound() && AreaFree() && bc.disk == old(bc.disk) && bc.trace == old(bc.trace)
    {
      hide Coherent, ListOk, BufsOk;
      var k := 0;
      while k < |acts|
        invariant 0 <= k <= |acts| && Sound() && AreaFree() && bc.disk == old(bc.disk) && bc.trace == old(bc.trace)
      {
        match acts[k] {
          case Bread(blk) =>
            if blk < |bc.disk| && !(lay.start <= blk < lay.start + lay.size) {
              var _ := Read(blk);
            }
          case Brelse(b) =>
            if b < NBUF && bc.bufs[b].locked {
              Release(b);
            }
        }
        k := k + 1;
      }
    }

    /** bread two different blocks, in this order; the two buffers become locked and show the logical contents. */
    method ReadTwo(x: nat, y: nat) returns (ok: bool, i: nat, j: nat)
      requires Sound() && x != y && x < |bc.disk| && y < |bc.disk| && bc.Available(x) && dirty == {}
      modifies bc`bufs
      ensures Sound() && LockedOnly(old(bc.bufs), bc.bufs, if ok then {i, j} else {i})
      ensures !ok ==> bc.Exhausted() || !bc.Available(y)
      ensures ok ==> i < NBUF && j < NBUF && i != j
      ensures ok ==> Shows(bc.bufs[i], x, logical) && Shows(bc.bufs[j], y, logical)
    {
      hide Coherent, ListOk, BufsOk;
      var a := Read(x);
      if !a.Buffer? { return false, 0, 0; }
      var b := Read(y);
      if !b.Buffer? { return false, a.value, 0; }
      return true, a.value, b.value;
    }

    method ReleaseTwo(i: nat, j: nat)
      requires Sound() && i < NBUF && j < NBUF && i != j && bc.bufs[i].locked && bc.bufs[j].locked && dirty == {}
      modifies bc
      ensures Sound() && bc.disk == old(bc.disk) && bc.trace == old(bc.trace)
      ensures LockedOnly(old(bc.bufs), bc.bufs, {}) && !bc.bufs[i].locked && !bc.bufs[j].locked
    {
      hide Coherent, ListOk, BufsOk;
      Release(i);
      Release(j);
    }

    /** One round of write_log: copy a cached block into the log area. */
    method WriteLogEntry(tail: nat) returns (ok: bool)
      requires Sound() && TxOk(lay, bc.disk, lh) && queue == lh && tail < |lh| && AreaFree() && dirty == {}
      modifies bc, this`logical, this`dirty
      ensures ok ==> Sound() && TxOk(lay, bc.disk, lh) && AreaFree() && dirty == {}
      ensures ok ==> bc.disk == old(bc.disk)[lay.start + 1 + tail := old(logical)[lh[tail]]]
      ensures ok ==> logical == old(logical)[lay.start + 1 + tail := old(logical)[lh[tail]]]
      ensures ok ==> bc.trace == old(bc.trace) + [Write(lay.start + 1 + tail, old(logical)[lh[tail]])]
      ensures !ok ==> bc.disk == old(bc.disk) && bc.trace == old(bc.trace) && Stuck()
    {
      hide Coherent, ListOk, BufsOk;
      assert Home(lay, bc.disk, lh[tail]);
      NotLogged(lay, bc.disk, lh, lay.start + 1 + tail);
      var found, to, from := ReadTwo(lay.start + 1 + tail, lh[tail]);
      if !found { return false; }
      Change(to, bc.bufs[from].data);
      WriteThrough(bc.disk, bc.bufs, logical, queue, pins, dirty, to);
      bc.BWrite(to);
      logical := logical[bc.bufs[to].blockno := bc.bufs[to].data];
      dirty := dirty - {to};
      ReleaseTwo(from, to);
      TxSame(lay, old(bc.disk), bc.disk, lh);
      return true;
    }

    /** The state inside the loop of write_log, which began with logical disk l. */
    ghost predicate Copying(d: Disk, t: seq<Write>, l: Disk, c: seq<Block>, tail: nat)
      reads this, bc
    {
      && Sound() && TxOk(lay, bc.disk, lh) && queue == lh && AreaFree() && dirty == {} && tail <= |lh| && |bc.disk| == |d|
      && Copied(lay, l, logical, lh, c, tail) && Issued(d, t, bc.disk, bc.trace, LogWrites(lay, c), tail)
    }

    /** One round of write_log, after what others have done. */
    method CopyRound(tail: nat, acts: seq<Act>, ghost d: Disk, ghost t: seq<Write>, ghost l: Disk, ghost c: seq<Block>)
      returns (ok: bool)
      requires Copying(d, t, l, c, tail) && tail < |lh|
      modifies bc, this`logical, this`dirty
      ensures ok ==> Copying(d, t, l, c, tail + 1)
      ensures !ok ==> SomeIssued(d, t, bc.disk, bc.trace, LogWrites(lay, c)) && Stuck()
    {
      hide Coherent, ListOk, BufsOk, Issued, SomeIssued, LogWrites, Copied, TxOk;
      CopiedNext(lay, bc.disk, l, logical, lh, c, tail);
      LogWriteAt(lay, c, tail);
      IssuedNext(d, t, bc.disk, bc.trace, LogWrites(lay, c), tail);
      IsSome(d, t, bc.disk, bc.trace, LogWrites(lay, c), tail);
      Others(acts);
      ok := WriteLogEntry(tail);
    }

    /** write_log: copy the logged blocks from the cache to the log. */
    method WriteLog(env: Env) returns (ok: bool)
      requires Sound() && TxOk(lay, bc.disk, lh) && queue == lh && AreaFree() && dirty == {}
      modifies bc, this`logical, this`dirty
      ensures ok ==> Sound() && TxOk(lay, bc.disk, lh) && AreaFree() && dirty == {}
      ensures ok ==> HomeEq(lay, old(logical), logical) && logical[lay.start] == old(logical[lay.start])
      ensures ok ==> forall k :: 0 <= k < |lh| ==> logical[lay.start + 1 + k] == logical[lh[k]] == old(ContentsOf(lh))[k]
      ensures SomeIssued(old(bc.disk), old(bc.trace), bc.disk, bc.trace, LogWrites(lay, old(ContentsOf(lh))))
      ensures ok ==> Issued(old(bc.disk), old(bc.trace), bc.disk, bc.trace, LogWrites(lay, old(ContentsOf(lh))), |lh|)
      ensures !ok ==> Stuck()
    {
      hide Coherent, ListOk, BufsOk, Issued, SomeIssued;
      InBounds(lay, bc.disk, lh);
      ghost var c := ContentsOf(lh);
      ghost var d, t, l := bc.disk, bc.trace, logical;
      IssuedNone(d, t, LogWrites(lay, c));
      var tail := 0;
      assert Copying(d, t, l, c, 0);
      while tail < |lh|
        invariant 0 <= tail <= |lh| && Copying(d, t, l, c, tail)
      {
        hide Copying;
        ok := CopyRound(tail, env(tail), d, t, l, c);
        if !ok { return; }
        tail := tail + 1;
      }
      IsSome(d, t, bc.disk, bc.trace, LogWrites(lay, c), tail);
      AllCopied(lay, l, logical, lh, c);
      return true;
    }

    /** write_head: store the in-memory header in the header block. */
    method WriteHead() returns (ok: bool)
      requires Sound() && Entries(lh) && lay.start !in queue && bc.Available(lay.start) && dirty == {}
      modifies bc, this`logical, this`dirty
      ensures ok ==> Sound() && dirty == {} && LockedOnly(old(bc.bufs), bc.bufs, {})
      ensures ok ==> bc.disk == old(bc.disk)[lay.start := PutHead(old(logical)[lay.start], lh)]
      ensures ok ==> logical == old(logical)[lay.start := PutHead(old(logical)[lay.start], lh)]
      ensures ok ==> bc.trace == old(bc.trace) + [Write(lay.start, PutHead(old(logical)[lay.start], lh))]
      ensures !ok ==> bc.disk == old(bc.disk) && bc.trace == old(bc.trace) && bc.Exhausted()
    {
      hide Coherent, ListOk, BufsOk;
      var r := Read(lay.start);
      if !r.Buffer? { return false; }
      var buf := r.value;
      var hb := SetWord(bc.bufs[buf].data, 0, |lh|);
      var i := 0;
      while i < |lh|
        invariant 0 <= i <= |lh| && hb == PutEntries(bc.bufs[buf].data, lh, i)
      {
        hb := SetWord(hb, i + 1, lh[i]);
        i := i + 1;
      }
      Change(buf, hb);
      WriteThrough(bc.disk, bc.bufs, logical, queue, pins, dirty, buf);
      bc.BWrite(buf);
      logical := logical[lay.start := bc.bufs[buf].data];
      dirty := dirty - {buf};
      Release(buf);
      return true;
    }

    /** One round of install_trans: copy a log block to its home. */
    method InstallEntry(tail: nat, recovering: bool) returns (ok: bool)
      requires Sound() && tail < |lh| && |lh| < lay.size && Home(lay, bc.disk, lh[tail]) && AreaFree() && dirty == {}
      requires recovering ==> queue == []
      requires !recovering ==> |queue| > 0 && queue[0] == lh[tail] && Distinct(queue) && |queue| == |pins|
                               && logical[lh[tail]] == logical[lay.start + 1 + tail]
      modifies bc, this`logical, this`dirty, this`queue, this`pins
      ensures ok ==> Sound() && AreaFree() && dirty == {}
      ensures ok ==> bc.disk == old(bc.disk)[lh[tail] := old(logical)[lay.start + 1 + tail]]
      ensures ok ==> logical == old(logical)[lh[tail] := old(logical)[lay.start + 1 + tail]]
      ensures ok ==> bc.trace == old(bc.trace) + [Write(lh[tail], old(logical)[lay.start + 1 + tail])]
      ensures ok ==> queue == (if recovering then [] else old(queue)[1..])
      ensures !ok ==> bc.disk == old(bc.disk) && bc.trace == old(bc.trace) && Stuck()
    {
      hide Coherent, ListOk, BufsOk;
      var found, lbuf, dbuf := ReadTwo(lay.start + 1 + tail, lh[tail]);
      if !found { return false; }
      PutHome(dbuf, bc.bufs[lbuf].data, recovering);
      ReleaseTwo(lbuf, dbuf);
      return true;
    }

    /** The holder of a home block gives it the contents from the log, writes it, and unpins it unless recovering. */
    method PutHome(dbuf: nat, x: Block, recovering: bool)
      requires Sound() && dirty == {} && dbuf < NBUF && bc.bufs[dbuf].locked && bc.bufs[dbuf].valid && bc.bufs[dbuf].dev == 1
      requires bc.bufs[dbuf].blockno < |bc.disk|
      requires recovering ==> queue == []
      requires !recovering ==> |queue| > 0 && queue[0] == bc.bufs[dbuf].blockno && Distinct(queue) && |queue| == |pins|
                               && logical[queue[0]] == x
      modifies bc, this`logical, this`dirty, this`queue, this`pins
      ensures Sound() && dirty == {} && bc.bufs == old(bc.bufs)[dbuf := bc.bufs[dbuf]] && bc.bufs[dbuf].locked
      ensures bc.bufs[dbuf].blockno == old(bc.bufs[dbuf].blockno)
      ensures var b := old(bc.bufs[dbuf].blockno);
              bc.disk == old(bc.disk)[b := x] && logical == old(logical)[b := x] && bc.trace == old(bc.trace) + [Write(b, x)]
      ensures queue == (if recovering then [] else old(queue)[1..])
    {
      hide Coherent, ListOk, BufsOk;
      Change(dbuf, x);
      if recovering {
        WriteThrough(bc.disk, bc.bufs, logical, queue, pins, dirty, dbuf);
        bc.BWrite(dbuf);
        logical := logical[bc.bufs[dbuf].blockno := x];
      } else {
        InstallFirst(bc.disk, bc.bufs, logical, queue, pins, dirty, dbuf);
        bc.BWrite(dbuf);
        bc.BUnpin(dbuf);
        queue, pins := queue[1..], pins[1..];
      }
      dirty := dirty - {dbuf};
    }

    /** The state inside the loop of install_trans, which began with logical disk l: the first tail log blocks
        are home, with the writes for them issued. */
    ghost predicate Installing(recovering: bool, d: Disk, t: seq<Write>, l: Disk, tail: nat)
      reads this, bc
    {
      && Sound() && AreaFree() && dirty == {} && tail <= |lh| < lay.size && |bc.disk| == |d| == |l| && LayoutOk(lay, l)
      && (forall k :: 0 <= k < |lh| ==> Home(lay, d, lh[k]))
      && AreaSame(lay, l, logical) && Issued(d, t, bc.disk, bc.trace, InstallWrites(lay, l, lh), tail)
      && (if recovering then queue == [] else queue == lh[tail..] && Distinct(lh) && logical == l && AllLogged(lay, l, lh))
    }

    /** One round of install_trans, after what others have done. */
    method InstallRound(tail: nat, recovering: bool, acts: seq<Act>, ghost d: Disk, ghost t: seq<Write>, ghost l: Disk)
      returns (ok: bool)
      requires Installing(recovering, d, t, l, tail) && tail < |lh|
      modifies bc, this`logical, this`dirty, this`queue, this`pins
      ensures ok ==> Installing(recovering, d, t, l, tail + 1)
      ensures !ok ==> SomeIssued(d, t, bc.disk, bc.trace, InstallWrites(lay, l, lh)) && Stuck()
    {
      hide Coherent, ListOk, BufsOk, Issued, SomeIssued, InstallWrites, AreaSame;
      InstallAt(lay, l, lh, tail);
      IssuedNext(d, t, bc.disk, bc.trace, InstallWrites(lay, l, lh), tail);
      IsSome(d, t, bc.disk, bc.trace, InstallWrites(lay, l, lh), tail);
      assert Home(lay, d, lh[tail]);
      AreaNext(lay, l, logical, lh[tail], lay.start + 1 + tail);
      QueueLength(bc.disk, bc.bufs, logical, queue, pins, dirty);
      Others(acts);
      ok := InstallEntry(tail, recovering);
    }

    /** install_trans: copy committed blocks from the log to their homes. */
    method InstallTrans(recovering: bool, env: Env) returns (ok: bool)
      requires Sound() && |lh| < lay.size && AreaFree() && dirty == {}
      requires forall k :: 0 <= k < |lh| ==> Home(lay, bc.disk, lh[k])
      requires recovering ==> queue == []
      requires !recovering ==> queue == lh && Distinct(lh) && AllLogged(lay, logical, lh)
      modifies bc, this`logical, this`dirty, this`queue, this`pins
      ensures ok ==> Sound() && AreaFree() && dirty == {} && queue == []
      ensures ok ==> |bc.disk| == |old(bc.disk)| && logical[lay.start] == old(logical)[lay.start]
      ensures ok && !recovering ==> logical == old(logical)
      ensures SomeIssued(old(bc.disk), old(bc.trace), bc.disk, bc.trace, InstallWrites(lay, old(logical), lh))
      ensures ok ==> Issued(old(bc.disk), old(bc.trace), bc.disk, bc.trace, InstallWrites(lay, old(logical), lh), |lh|)
      ensures !ok ==> Stuck()
    {
      hide Coherent, ListOk, BufsOk, Issued, SomeIssued;
      ghost var d, t, l := bc.disk, bc.trace, logical;
      InstallInRange(lay, l, lh);
      IssuedNone(d, t, InstallWrites(lay, l, lh));
      var tail := 0;
      assert lh[0..] == lh;
      assert Installing(recovering, d, t, l, 0);
      while tail < |lh|
        invariant 0 <= tail <= |lh| && Installing(recovering, d, t, l, tail)
      {
        hide Installing;
        ok := InstallRound(tail, recovering, env(tail), d, t, l);
        if !ok { return; }
        tail := tail + 1;
      }
      IsSome(d, t, bc.disk, bc.trace, InstallWrites(lay, l, lh), tail);
      AreaStart(lay, l, logical);
      return true;
    }

    /** commit: the sequence of disk writes is the one whose every prefix the crash
        theorems speak about, and a completed commit leaves disk and logical disk equal. */
    method Commit(env: Env) returns (ok: bool)
      requires Sound() && queue == lh && TxOk(lay, bc.disk, lh) && LogEmpty(lay, bc.disk) && AreaFree() && dirty == {}
      modifies bc, this`lh, this`logical, this`dirty, this`queue, this`pins
      ensures SomeIssued(old(bc.disk), old(bc.trace), bc.disk, bc.trace,
                         CommitWrites(lay, old(bc.disk), old(lh), old(ContentsOf(lh))))
      ensures ok ==> Issued(old(bc.disk), old(bc.trace), bc.disk, bc.trace,
                            CommitWrites(lay, old(bc.disk), old(lh), old(ContentsOf(lh))),
                            |CommitWrites(lay, old(bc.disk), old(lh), old(ContentsOf(lh)))|)
      ensures ok ==> Sound() && lh == queue == [] && LogEmpty(lay, bc.disk) && dirty == {}
      ensures ok ==> bc.disk == logical && HomeEq(lay, old(logical), logical)
      ensures !ok ==> Stuck()
    {
      hide Coherent, ListOk, BufsOk, Issued, SomeIssued, CommitWrites;
      ghost var d, t, c := bc.disk, bc.trace, ContentsOf(lh);
      ghost var ws := CommitWrites(lay, d, lh, c);
      if |lh| > 0 {
        CommitShape(lay, d, lh, c);
        NotLogged(lay, d, lh, lay.start);
        DiskAt(bc.disk, bc.bufs, logical, queue, pins, dirty, lay.start);
        ok := ToCommitPoint(env, ws, c);
        if !ok { return; }
        HeadRoundTrip(PutHead(d[lay.start], lh), []);
        ok := FinishCommit(env, d, t, ws, c);
        if ok { AllClean(bc.disk, bc.bufs, logical, pins, dirty); }
        return;
      }
      NoCommit(lay, d, lh, c);
      IssuedNone(d, t, ws);
      IsSome(d, t, bc.disk, bc.trace, ws, 0);
      AllClean(bc.disk, bc.bufs, logical, pins, dirty);
      return true;
    }

    /** The first half of commit, up to and including the write of the header. */
    method ToCommitPoint(env: Env, ghost ws: seq<Write>, ghost c: seq<Block>) returns (ok: bool)
      requires Sound() && queue == lh && TxOk(lay, bc.disk, lh) && AreaFree() && dirty == {} && |lh| > 0
      requires Entries(lh) && lay.start !in lh && (forall k :: 0 <= k < |lh| ==> lh[k] < |logical|) && c == ContentsOf(lh)
      requires |ws| == 2 * |lh| + 2 && InRange(bc.disk, ws) && ws[0..0 + |lh|] == LogWrites(lay, c)
      requires ws[|lh|] == Write(lay.start, PutHead(logical[lay.start], lh))
      modifies bc, this`logical, this`dirty
      ensures SomeIssued(old(bc.disk), old(bc.trace), bc.disk, bc.trace, ws)
      ensures ok ==> Issued(old(bc.disk), old(bc.trace), bc.disk, bc.trace, ws, |lh| + 1)
      ensures ok ==> Sound() && TxOk(lay, bc.disk, lh) && AreaFree() && dirty == {}
      ensures ok ==> forall k :: 0 <= k < |lh| ==> logical[lh[k]] == logical[lay.start + 1 + k] == c[k]
      ensures ok ==> HomeEq(lay, old(logical), logical) && logical[lay.start] == PutHead(old(logical[lay.start]), lh)
      ensures !ok ==> Stuck()
    {
      hide Coherent, ListOk, BufsOk, Issued, SomeIssued, TxOk;
      var n := |lh|;
      ghost var d, t := bc.disk, bc.trace;
      IssuedNone(d, t, ws);
      ok := WriteLog(env);
      ghost var d1, t1 := bc.disk, bc.trace;
      SomeThen(d, t, d, t, d1, t1, ws, 0, LogWrites(lay, c));
      if !ok { return; }
      IssuedThen(d, t, d, t, d1, t1, ws, 0, LogWrites(lay, c), n);
      IssuedNext(d, t, d1, t1, ws, n);
      Others(env(n));
      ok := WriteHead();
      IsSome(d, t, bc.disk, bc.trace, ws, if ok then n + 1 else n);
      if ok { TxSame(lay, d1, bc.disk, lh); }
    }

    /** The rest of the last end_op, with calls that want to begin kept waiting: the commit, in terms of the
        updates logged since the last one. */
    method GroupCommit(env: Env) returns (ok: bool)
      requires Valid() && committing && AreaFree() && dirty == {}
      modifies bc, this`lh, this`logical, this`dirty, this`queue, this`pins, this`updates, this`committing
      ensures InRange(old(bc.disk), old(updates)) && TxOk(lay, old(bc.disk), Logged(old(updates)))
      ensures SomeIssued(old(bc.disk), old(bc.trace), bc.disk, bc.trace,
                         CommitWrites(lay, old(bc.disk), Logged(old(updates)), Contents(old(bc.disk), old(updates))))
      ensures ok ==> Valid() && lh == [] && updates == [] && dirty == {} && !committing
      ensures ok ==> bc.disk == logical && HomeEq(lay, old(logical), logical)
      ensures !ok ==> Stuck()
    {
      hide Coherent, ListOk, BufsOk, SomeIssued, Issued, CommitWrites, TxOk, Tracks;
      CommitAlone(Room(), Clear, lay.size);
      StepKeepsReserved(Room(), Clear, lay.size);
      StepKeepsReserved(Next(Room(), Clear), Done, lay.size);
      hide Reserved;
      InBounds(lay, bc.disk, lh);
      TracksContents(bc.disk, updates, lh, logical, ContentsOf(lh));
      ok := Commit(env);
      if ok {
        committing := false;
        updates := [];
        TracksNone(bc.disk);
        TxNone(lay, bc.disk);
      }
    }

    /** The critical section of end_op: the last call starts a commit. The panic is not reached. */
    method Leave(op: nat) returns (doCommit: bool)
      requires Valid() && op < |ops|
      modifies this`outstanding, this`committing, this`ops
      ensures Valid() && ops == old(ops)[..op] + old(ops)[op + 1..]
      ensures !old(committing) && (doCommit <==> |old(ops)| == 1) && committing == doCommit
    {
      hide Coherent, ListOk, BufsOk, TxOk, LogEmpty, Tracks, Reserved;
      InProgress(Room(), op);
      StepKeepsReserved(Room(), End(op), lay.size);
      outstanding := outstanding - 1;
      ops := ops[..op] + ops[op + 1..];
      if committing { // panic
        assert false;
      }
      doCommit := outstanding == 0;
      if doCommit {
        committing := true;
      }
    }

    /** end_op of the op-th outstanding call; the last one commits, while others go on as env says. */
    method EndOp(op: nat, env: Env) returns (ok: bool)
      requires Valid() && op < |ops| && (|ops| == 1 ==> dirty == {} && AreaFree())
      modifies this, bc
      ensures InRange(old(bc.disk), old(updates)) && TxOk(lay, old(bc.disk), Logged(old(updates)))
      ensures |old(ops)| > 1 ==> ok && Valid() && updates == old(updates) && lh == old(lh) && logical == old(logical)
                                 && bc.trace == old(bc.trace) && ops == old(ops)[..op] + old(ops)[op + 1..]
      ensures |old(ops)| == 1 ==> SomeIssued(old(bc.disk), old(bc.trace), bc.disk, bc.trace,
                                             CommitWrites(lay, old(bc.disk), Logged(old(updates)), Contents(old(bc.disk), old(updates))))
      ensures |old(ops)| == 1 && ok ==> Valid() && lh == [] && updates == [] && ops == [] && !committing
      ensures |old(ops)| == 1 && ok ==> bc.disk == logical && HomeEq(lay, old(logical), logical)
      ensures !ok ==> Stuck()
    {
      hide Coherent, ListOk, BufsOk, SomeIssued, Issued, CommitWrites, TxOk, Reserved, HomeEq, LogEmpty;
      var doCommit := Leave(op);
      if doCommit {
        ok := GroupCommit(env);
        return;
      }
      return true;
    }

    /** The second half of commit: install, clear the in-memory count, erase the header. */
    method FinishCommit(env: Env, ghost d: Disk, ghost t: seq<Write>, ghost ws: seq<Write>, ghost c: seq<Block>) returns (ok: bool)
      requires Sound() && queue == lh && TxOk(lay, bc.disk, lh) && AreaFree() && dirty == {} && |c| == |lh| > 0
      requires forall k :: 0 <= k < |lh| ==> lh[k] < |logical| && logical[lh[k]] == logical[lay.start + 1 + k] == c[k]
      requires |ws| == 2 * |lh| + 2 && Issued(d, t, bc.disk, bc.trace, ws, |lh| + 1)
      requires ws[|lh| + 1..|lh| + 1 + |lh|] == HomeWrites(lh, c)
      requires ws[2 * |lh| + 1] == ClearWrite(lay, logical[lay.start])
      modifies bc, this`lh, this`logical, this`dirty, this`queue, this`pins
      ensures SomeIssued(d, t, bc.disk, bc.trace, ws)
      ensures ok ==> Issued(d, t, bc.disk, bc.trace, ws, |ws|)
      ensures ok ==> Sound() && lh == queue == [] && dirty == {}
      ensures ok ==> logical == old(logical)[lay.start := PutHead(old(logical)[lay.start], [])]
      ensures !ok ==> Stuck()
    {
      hide Coherent, ListOk, BufsOk, Issued, SomeIssued;
      var n := |lh|;
      ghost var d2, t2 := bc.disk, bc.trace;
      ghost var iws := InstallWrites(lay, logical, lh);
      assert ws[n + 1..n + 1 + n] == iws;
      ok := InstallTrans(false, (r: nat) => env(n + 1 + r));
      SomeThen(d, t, d2, t2, bc.disk, bc.trace, ws, n + 1, iws);
      if !ok { return; }
      IssuedThen(d, t, d2, t2, bc.disk, bc.trace, ws, n + 1, iws, n);
      IssuedNext(d, t, bc.disk, bc.trace, ws, n + 1 + n);
      lh := [];
      Others(env(2 * n + 1));
      ok := WriteHead();
      IsSome(d, t, bc.disk, bc.trace, ws, if ok then |ws| else n + 1 + n);
    }

    /** read_head: load the header block into memory. */
    method ReadHeader() returns (ok: bool)
      requires Sound() && queue == [] && bc.Available(lay.start) && dirty == {} && Word(logical[lay.start], 0) <= LOGSIZE
      modifies bc, this`lh
      ensures bc.disk == old(bc.disk) && bc.trace == old(bc.trace)
      ensures ok ==> Sound() && LockedOnly(old(bc.bufs), bc.bufs, {}) && lh == ReadHead(logical[lay.start])
      ensures !ok ==> bc.Exhausted()
    {
      hide Coherent, ListOk, BufsOk;
      var r := Read(lay.start);
      if !r.Buffer? { return false; }
      var h := bc.bufs[r.value].data;
      var n := Word(h, 0);
      var entries: seq<nat> := [];
      var i := 0;
      while i < n
        invariant 0 <= i <= n && entries == ReadHead(h)[..i]
      {
        entries := entries + [Word(h, i + 1)];
        i := i + 1;
      }
      lh := entries;
      Release(r.value);
      return true;
    }

    /** recover_from_log, at boot with an empty cache. */
    method RecoverFromLog() returns (ok: bool)
      requires Sound() && queue == [] && lh == [] && dirty == {} && AreaFree() && LogOk(lay, bc.disk)
      requires ops == [] && outstanding == 0 && !committing
      modifies bc, this`lh, this`logical, this`dirty, this`queue, this`pins, this`updates
      ensures SomeIssued(old(bc.disk), old(bc.trace), bc.disk, bc.trace, RecoverWrites(lay, old(bc.disk)))
      ensures ok ==> Valid() && lh == [] && bc.disk == logical == Recovered(lay, old(bc.disk))
      ensures !ok ==> Stuck()
    {
      hide Coherent, ListOk, BufsOk, SomeIssued, Issued, InRange, Recovered;
      AllClean(bc.disk, bc.bufs, logical, pins, dirty);
      ghost var d, t := bc.disk, bc.trace;
      ghost var ws, n := RecoverWrites(lay, d), |ReadHead(d[lay.start])|;
      ghost var iws := InstallWrites(lay, d, ReadHead(d[lay.start]));
      RecoverInRange(lay, d);
      RecoverShape(lay, d);
      IssuedNone(d, t, ws);
      IsSome(d, t, d, t, ws, 0);
      hide RecoverWrites, InstallWrites;
      ok := ReadHeader();
      if !ok { return; }
      ok := InstallTrans(true, _ => []);
      SomeThen(d, t, d, t, bc.disk, bc.trace, ws, 0, iws);
      if !ok { return; }
      IssuedThen(d, t, d, t, bc.disk, bc.trace, ws, 0, iws, n);
      ok := EndRecovery(d, t, n);
    }

    /** The end of recovery: erase the header. */
    method EndRecovery(ghost d: Disk, ghost t: seq<Write>, ghost n: nat) returns (ok: bool)
      requires Sound() && queue == [] && dirty == {} && AreaFree() && LogOk(lay, d) && n == |ReadHead(d[lay.start])|
      requires ops == [] && outstanding == 0 && !committing && logical[lay.start] == d[lay.start] && |bc.disk| == |d|
      requires Issued(d, t, bc.disk, bc.trace, RecoverWrites(lay, d), n)
      modifies bc, this`lh, this`logical, this`dirty, this`updates
      ensures SomeIssued(d, t, bc.disk, bc.trace, RecoverWrites(lay, d))
      ensures ok ==> Valid() && lh == [] && bc.disk == logical == Recovered(lay, d)
      ensures !ok ==> Stuck()
    {
      hide Coherent, ListOk, BufsOk, SomeIssued, Issued;
      ghost var ws := RecoverWrites(lay, d);
      RecoverShape(lay, d);
      IssuedNext(d, t, bc.disk, bc.trace, ws, n);
      lh := [];
      ok := WriteHead();
      IsSome(d, t, bc.disk, bc.trace, ws, if ok then n + 1 else n);
      if ok {
        AllIssued(d, t, bc.disk, bc.trace, ws);
        AllClean(bc.disk, bc.bufs, logical, pins, dirty);
        RecoveredEmpty(lay, d);
        updates := [];
        TracksNone(bc.disk);
      }
    }
  }

  /** The buffers after log_write: one reference more on the logged buffer if its block was not in the log. */
  ghost function PinIfNew(bufs: seq<Buf>, b: nat, lh: seq<nat>): seq<Buf>
    requires b < |bufs|
  {
    if bufs[b].blockno in lh then bufs else bufs[b := bufs[b].(refcnt := bufs[b].refcnt + 1)]
  }

  /** The first k of the logged blocks have been copied to the log area, and nothing else has changed. */
  ghost predicate Copied(lay: Layout, l: Disk, m: Disk, lh: seq<nat>, c: seq<Block>, k: nat) {
    && k <= |lh| == |c| && |lh| < lay.size && |m| == |l| && lay.start + lay.size <= |l|
    && HomeEq(lay, l, m) && m[lay.start] == l[lay.start]
    && (forall j :: 0 <= j < |lh| ==> lh[j] < |m| && m[lh[j]] == c[j])
    && (forall j :: 0 <= j < k ==> m[lay.start + 1 + j] == c[j])
  }

  lemma CopiedNext(lay: Layout, d: Disk, l: Disk, m: Disk, lh: seq<nat>, c: seq<Block>, k: nat)
    requires Copied(lay, l, m, lh, c, k) && k < |lh| && TxOk(lay, d, lh)
    ensures lh[k] < |m| && m[lh[k]] == c[k] && lay.start + 1 + k < |m|
    ensures Copied(lay, l, m[lay.start + 1 + k := c[k]], lh, c, k + 1)
  {
    NotLogged(lay, d, lh, lay.start + 1 + k);
  }

  lemma AllCopied(lay: Layout, l: Disk, m: Disk, lh: seq<nat>, c: seq<Block>)
    requires Copied(lay, l, m, lh, c, |lh|)
    ensures HomeEq(lay, l, m) && lay.start < |m| == |l| && m[lay.start] == l[lay.start]
    ensures forall k :: 0 <= k < |lh| ==> lh[k] < |m| && lay.start + 1 + k < |m| && m[lay.start + 1 + k] == m[lh[k]] == c[k]
  {
  }

  lemma LogWriteAt(lay: Layout, c: seq<Block>, k: nat)
    requires k < |c|
    ensures |LogWrites(lay, c)| == |c| && LogWrites(lay, c)[k] == Write(lay.start + 1 + k, c[k])
  {
  }

  lemma RecoverShape(lay: Layout, d: Disk)
    requires LogOk(lay, d)
    ensures var ws, n := RecoverWrites(lay, d), |ReadHead(d[lay.start])|;
            && |ws| == n + 1 && ws[0..0 + n] == InstallWrites(lay, d, ReadHead(d[lay.start]))
            && ws[n] == ClearWrite(lay, d[lay.start])
  {
  }

  /** Every log block holds the contents of the block it stands for. */
  ghost predicate AllLogged(lay: Layout, l: Disk, lh: seq<nat>) {
    lay.start + |lh| < |l| && forall k :: 0 <= k < |lh| ==> lh[k] < |l| && l[lh[k]] == l[lay.start + 1 + k]
  }

  /** The log area reads the same on both disks. */
  ghost predicate AreaSame(lay: Layout, l: Disk, m: Disk) {
    |l| == |m| && forall b: nat :: lay.start <= b < lay.start + lay.size && b < |l| ==> m[b] == l[b]
  }

  lemma AreaNext(lay: Layout, l: Disk, m: Disk, h: nat, b: nat)
    requires AreaSame(lay, l, m) && Home(lay, l, h) && lay.start <= b < lay.start + lay.size && b < |l|
    ensures h < |m| == |l| && m[b] == l[b] && AreaSame(lay, l, m[h := m[b]])
  {
  }

  lemma AreaStart(lay: Layout, l: Disk, m: Disk)
    requires AreaSame(lay, l, m) && lay.start < |l| && lay.size > 0
    ensures lay.start < |m| && m[lay.start] == l[lay.start]
  {
  }

  lemma InstallAt(lay: Layout, d: Disk, lh: seq<nat>, k: nat)
    requires lay.start + |lh| < |d| && k < |lh|
    ensures InstallWrites(lay, d, lh)[k] == Write(lh[k], d[lay.start + 1 + k])
  {
  }

  lemma InstallInRange(lay: Layout, d: Disk, lh: seq<nat>)
    requires lay.start + |lh| < |d| && forall k :: 0 <= k < |lh| ==> Home(lay, d, lh[k])
    ensures InRange(d, InstallWrites(lay, d, lh))
  {
  }

  lemma AllIssued(d: Disk, t: seq<Write>, d': Disk, t': seq<Write>, ws: seq<Write>)
    requires Issued(d, t, d', t', ws, |ws|)
    ensures d' == Apply(d, ws)
  {
    assert ws[..|ws|] == ws;
  }

  lemma IsSome(d: Disk, t: seq<Write>, d': Disk, t': seq<Write>, ws: seq<Write>, k: nat)
    requires Issued(d, t, d', t', ws, k)
    ensures SomeIssued(d, t, d', t', ws)
  {
  }

  lemma AllClean(disk: Disk, bufs: seq<Buf>, logical: Disk, pins: seq<nat>, dirty: set<nat>)
    requires Coherent(disk, bufs, logical, [], pins, dirty)
    ensures disk == logical
  {
  }

  lemma NoCommit(lay: Layout, d: Disk, blocks: seq<nat>, contents: seq<Block>)
    requires TxOk(lay, d, blocks) && |contents| == |blocks| == 0
    ensures CommitWrites(lay, d, blocks, contents) == []
  {
  }

  lemma NotLogged(lay: Layout, d: Disk, lh: seq<nat>, b: nat)
    requires TxOk(lay, d, lh) && lay.start <= b < lay.start + lay.size
    ensures b !in lh
  {
  }

  lemma DiskAt(disk: Disk, bufs: seq<Buf>, logical: Disk, lh: seq<nat>, pins: seq<nat>, dirty: set<nat>, b: nat)
    requires Coherent(disk, bufs, logical, lh, pins, dirty) && b < |disk| && b !in lh
    ensures |logical| == |disk| && disk[b] == logical[b]
  {
  }

  /** No buffer became locked except those in extra. */
  ghost predicate LockedOnly(a: seq<Buf>, b: seq<Buf>, extra: set<nat>) {
    |a| == |b| && forall i: nat :: i < |a| && i !in extra && b[i].locked ==> a[i].locked && a[i].blockno == b[i].blockno
  }

  /** A locked buffer showing the logical contents of a block. */
  predicate Shows(b: Buf, blk: nat, logical: Disk) {
    blk < |logical| && Holds(b, 1, blk) && b.valid && b.locked && b.data == logical[blk]
  }

  lemma TxSame(lay: Layout, d: Disk, e: Disk, lh: seq<nat>)
    requires TxOk(lay, d, lh) && |e| == |d|
    ensures TxOk(lay, e, lh)
  {
  }

  lemma QueueLength(disk: Disk, bufs: seq<Buf>, logical: Disk, lh: seq<nat>, pins: seq<nat>, dirty: set<nat>)
    requires Coherent(disk, bufs, logical, lh, pins, dirty)
    ensures |lh| == |pins|
  {
  }
}
