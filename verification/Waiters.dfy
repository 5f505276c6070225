/** Who sleeps in begin_op and in the disk driver, in every interleaving. */
module Waiters {
  import opened Common
  import opened Blocks
  import opened Crash
  import opened Monitor
  import Reservation

  // ----- begin_op and end_op, on &log under log.lock -----

  /** log.lh.n, log.outstanding and log.committing. */
  datatype LogState = LogState(n: nat, outstanding: nat, committing: bool)

  const LOG: nat := 0

  /** begin_op waits while a commit runs or the log might run out. */
  predicate MustWait(d: LogState) {
    d.committing || d.n + (d.outstanding + 1) * MAXOPBLOCKS > LOGSIZE
  }

  /** The critical sections of begin_op, log_write, end_op and of end_op after its commit, with what they wake. */
  predicate LogActs(d: LogState, d': LogState, c: Option<nat>) {
    || (!MustWait(d) && d' == d.(outstanding := d.outstanding + 1) && c == None)
    || (d.outstanding > 0 && (d' == d || d' == d.(n := d.n + 1)) && c == None)
    || (d.outstanding == 1 && d' == d.(outstanding := 0, committing := true) && c == None)
    || (d.outstanding > 1 && d' == d.(outstanding := d.outstanding - 1) && c == Some(LOG))
    || (d.committing && d' == d.(committing := false) && c == Some(LOG))
  }

  /** commit empties the header without the lock. */
  predicate LogQuiet(d: LogState, d': LogState) {
    d.committing && d' == d.(n := 0)
  }

  function LogClient(): Client<LogState, ()> {
    Client((d, d', c) => LogActs(d, d', c), (d, d') => LogQuiet(d, d'), (d, _) => MustWait(d), _ => LOG)
  }

  function Counters(s: Reservation.Space): LogState {
    LogState(|s.lh|, s.outstanding, s.committing)
  }

  /** What a step of begin_op, log_write or end_op wakes. */
  function Wakes(s: Reservation.Space, step: Reservation.Step): Option<nat> {
    if (step.End? && s.outstanding > 1) || step.Done? then Some(LOG) else None
  }

  /** These are the steps by which the log reserves its space. */
  lemma StepsAreActs(s: Reservation.Space, step: Reservation.Step, size: nat)
    requires Reservation.Reserved(s) && Reservation.Enabled(s, step, size)
    ensures var d, d' := Counters(s), Counters(Reservation.Next(s, step));
            if step.Clear? then LogQuiet(d, d') else LogActs(d, d', Wakes(s, step))
  {
  }

  /** When log.lock is free, nobody sleeps in begin_op that could be admitted. */
  lemma NobodyWaits(ss: seq<State<LogState, ()>>, t: nat, i: nat)
    requires Run(LogClient(), ss) && t < |ss| && ss[t].lock == None && i < |ss[t].ths| && !MustWait(ss[t].data)
    ensures !ss[t].ths[i].asleep
  {
    if ss[t].ths[i].asleep {
      SleepersBlocked(LogClient(), ss, t, i);
    }
  }

  // ----- the disk driver, on &disk.free[0] and on buffers under vdisk_lock -----

  /** The free descriptors, and the buffers b with b->disk == 1. */
  datatype DiskState = DiskState(free: set<nat>, busy: set<nat>)

  /** What virtio_disk_rw waits for: three descriptors, or the end of the request for buffer b. */
  datatype Want = Descs | Transfer(b: nat)

  predicate CannotHave(d: DiskState, w: Want) {
    match w
    case Descs => |d.free| < 3
    case Transfer(b) => b in d.busy
  }

  function WantChan(w: Want): nat {
    match w
    case Descs => 0
    case Transfer(b) => 1 + b
  }

  /** A descriptor is taken or freed, a request is handed to the device, a finished one is seen. */
  predicate DiskActs(d: DiskState, d': DiskState, c: Option<nat>) {
    || (d' == d.(free := d'.free) && d'.free <= d.free && c == None)
    || (d' == d.(busy := d'.busy) && d.busy <= d'.busy && c == None)
    || (d' == d.(free := d'.free) && d.free <= d'.free && c == Some(WantChan(Descs)))
    || (c.Some? && c.value > 0 && d' == d.(busy := d.busy - {c.value - 1}))
  }

  function DiskClient(): Client<DiskState, Want> {
    Client((d, d', c) => DiskActs(d, d', c), (d, d') => false, (d, w) => CannotHave(d, w), w => WantChan(w))
  }

  lemma FewerFree(a: set<nat>, b: set<nat>)
    requires a <= b
    ensures |a| <= |b|
  {
    assert b == a + (b - a);
  }

  lemma DiskGood()
    ensures Good(DiskClient())
  {
    var cl := DiskClient();
    forall d, d', c, w | cl.acts(d, d', c) && cl.blocked(d, w) && !cl.blocked(d', w) ensures c == Some(cl.chan(w)) {
      if d'.free <= d.free {
        FewerFree(d'.free, d.free);
      }
    }
  }

  /** When vdisk_lock is free, nobody sleeps for descriptors while three are free, and nobody for a request
      that is done. */
  lemma SleepersMustWait(ss: seq<State<DiskState, Want>>, t: nat, i: nat)
    requires Run(DiskClient(), ss) && t < |ss| && ss[t].lock == None && i < |ss[t].ths| && ss[t].ths[i].asleep
    ensures ss[t].ths[i].pc.Sched? || ss[t].ths[i].pc.Asleep?
    ensures match ss[t].ths[i].pc.w case Descs => |ss[t].data.free| < 3 case Transfer(b) => b in ss[t].data.busy
  {
    DiskGood();
    SleepersBlocked(DiskClient(), ss, t, i);
  }
}
