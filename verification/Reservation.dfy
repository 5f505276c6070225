/** Log space: how begin_op reserves it, log_write uses it and end_op returns it. */
module Reservation {
  import opened Blocks
  import opened Crash

  /** The header entries, the counters of log.c, and for every outstanding call the distinct blocks it has logged. */
  datatype Space = Space(lh: seq<nat>, outstanding: nat, committing: bool, ops: seq<set<nat>>)

  /** The critical sections of begin_op, log_write and end_op, and what the committer does without the
      lock: it empties the header, and then lets new calls in. */
  datatype Step =
    | Begin
    | LogWrite(op: nat, blk: nat)
    | End(op: nat)
    | Clear
    | Done

  /** What the calls in progress may still add to the log. */
  function Unused(ops: seq<set<nat>>): int {
    if ops == [] then 0 else MAXOPBLOCKS - |ops[0]| + Unused(ops[1..])
  }

  /** The test of begin_op; a call that fails it sleeps. */
  predicate Admits(s: Space) {
    !s.committing && |s.lh| + (s.outstanding + 1) * MAXOPBLOCKS <= LOGSIZE
  }

  /** The first test of log_write, for a log area of the given size; failing it is the panic. */
  predicate HasRoom(s: Space, size: nat) {
    |s.lh| < LOGSIZE && |s.lh| < size - 1
  }

  function Absorb(lh: seq<nat>, blk: nat): (r: seq<nat>)
    ensures blk in r && |r| <= |lh| + 1
    ensures forall b :: b in lh ==> b in r
    ensures Distinct(lh) ==> Distinct(r)
  {
    if blk in lh then lh else lh + [blk]
  }

  /** The bookkeeping of one step; the last end_op starts a commit. */
  function Next(s: Space, step: Step): Space
    requires step.LogWrite? || step.End? ==> step.op < |s.ops| && s.outstanding > 0
  {
    match step
    case Begin => s.(outstanding := s.outstanding + 1, ops := s.ops + [{}])
    case LogWrite(op, blk) => s.(lh := Absorb(s.lh, blk), ops := s.ops[op := s.ops[op] + {blk}])
    case End(op) =>
      Space(s.lh, s.outstanding - 1, s.committing || s.outstanding == 1, s.ops[..op] + s.ops[op + 1..])
    case Clear => s.(lh := [])
    case Done => s.(committing := false)
  }

  /** The panics of end_op and of log_write outside a transaction. */
  predicate EndPanics(s: Space) { s.committing }

  predicate OutsidePanics(s: Space) { s.outstanding < 1 }

  /** Steps the kernel lets happen without a panic, with every call keeping to MAXOPBLOCKS distinct blocks. */
  predicate Enabled(s: Space, step: Step, size: nat) {
    match step
    case Begin => Admits(s)
    case LogWrite(op, blk) =>
      op < |s.ops| && |s.ops[op] + {blk}| <= MAXOPBLOCKS && HasRoom(s, size) && !OutsidePanics(s)
    case End(op) => op < |s.ops| && s.outstanding > 0 && !EndPanics(s)
    case Clear => s.committing
    case Done => s.committing && s.lh == []
  }

  /** The reservation invariant. */
  ghost predicate Reserved(s: Space) {
    && Distinct(s.lh)
    && (forall i :: 0 <= i < |s.ops| ==> |s.ops[i]| <= MAXOPBLOCKS && forall b :: b in s.ops[i] ==> b in s.lh)
    && |s.lh| + Unused(s.ops) <= LOGSIZE
    && |s.ops| == s.outstanding
    && (s.committing ==> s.ops == [])
    && (s.ops == [] && !s.committing ==> s.lh == [])
  }

  lemma {:induction false} UnusedUpdate(ops: seq<set<nat>>, i: nat, x: set<nat>)
    requires i < |ops|
    ensures Unused(ops[i := x]) == Unused(ops) + |ops[i]| - |x|
  {
    if i == 0 {
      assert ops[i := x][1..] == ops[1..];
    } else {
      assert ops[i := x][1..] == ops[1..][i - 1 := x];
      UnusedUpdate(ops[1..], i - 1, x);
    }
  }

  lemma {:induction false} UnusedConcat(a: seq<set<nat>>, b: seq<set<nat>>)
    ensures Unused(a + b) == Unused(a) + Unused(b)
  {
    if a == [] {
      assert a + b == b;
    } else {
      assert (a + b)[1..] == a[1..] + b;
      UnusedConcat(a[1..], b);
    }
  }

  lemma {:induction false} UnusedBound(ops: seq<set<nat>>)
    requires forall i :: 0 <= i < |ops| ==> |ops[i]| <= MAXOPBLOCKS
    ensures 0 <= Unused(ops) <= |ops| * MAXOPBLOCKS
  {
    if ops != [] {
      UnusedBound(ops[1..]);
    }
  }

  lemma {:induction false} UnusedOf(ops: seq<set<nat>>, op: nat)
    requires op < |ops| && forall i :: 0 <= i < |ops| ==> |ops[i]| <= MAXOPBLOCKS
    ensures Unused(ops) >= MAXOPBLOCKS - |ops[op]|
  {
    if op == 0 {
      UnusedBound(ops[1..]);
    } else {
      UnusedOf(ops[1..], op - 1);
    }
  }

  lemma BeginKeepsReserved(s: Space)
    requires Reserved(s) && Admits(s)
    ensures Reserved(Next(s, Begin))
  {
    UnusedConcat(s.ops, [{}]);
    UnusedBound(s.ops);
  }

  lemma WriteKeepsReserved(s: Space, op: nat, blk: nat, size: nat)
    requires Reserved(s) && Enabled(s, LogWrite(op, blk), size)
    ensures Reserved(Next(s, LogWrite(op, blk)))
  {
    var used := s.ops[op] + {blk};
    UnusedUpdate(s.ops, op, used);
    var s' := Next(s, LogWrite(op, blk));
    forall i | 0 <= i < |s'.ops|
      ensures |s'.ops[i]| <= MAXOPBLOCKS && forall b :: b in s'.ops[i] ==> b in s'.lh
    {
    }
    if blk !in s.lh {
      assert blk !in s.ops[op];
      assert |used| == |s.ops[op]| + 1;
    } else {
      assert |s.ops[op]| <= |used| by {
        assert s.ops[op] <= used;
        if blk in s.ops[op] {
          assert used == s.ops[op];
        }
      }
    }
  }

  lemma {:induction false} UnusedRemoved(ops: seq<set<nat>>, op: nat)
    requires op < |ops|
    ensures Unused(ops[..op] + ops[op + 1..]) == Unused(ops) - MAXOPBLOCKS + |ops[op]|
  {
    if op == 0 {
      assert ops[..op] + ops[op + 1..] == ops[1..];
    } else {
      UnusedRemoved(ops[1..], op - 1);
      assert (ops[..op] + ops[op + 1..])[1..] == ops[1..][..op - 1] + ops[1..][op..];
    }
  }

  lemma EndKeepsReserved(s: Space, op: nat)
    requires Reserved(s) && op < |s.ops| && s.outstanding > 0
    ensures Reserved(Next(s, End(op)))
  {
    UnusedRemoved(s.ops, op);
    UnusedBound(s.ops);
    var ops := s.ops[..op] + s.ops[op + 1..];
    forall i | 0 <= i < |ops| ensures |ops[i]| <= MAXOPBLOCKS && forall x :: x in ops[i] ==> x in s.lh {
      assert ops[i] == s.ops[if i < op then i else i + 1];
    }
  }

  /** Every step keeps the reservation: header entries stay distinct, and together with
      the unused allowance of all calls in progress they never exceed the log. */
  lemma StepKeepsReserved(s: Space, step: Step, size: nat)
    requires Reserved(s) && Enabled(s, step, size)
    ensures Reserved(Next(s, step))
  {
    match step
    case Begin => BeginKeepsReserved(s);
    case LogWrite(op, blk) => WriteKeepsReserved(s, op, blk, size);
    case End(op) => EndKeepsReserved(s, op);
    case Clear =>
    case Done =>
  }

  /** A call that has logged fewer than MAXOPBLOCKS distinct blocks can log another one: with a log area
      larger than LOGSIZE always, and with the LOGSIZE blocks that mkfs makes exactly unless
      LOGSIZE - 1 entries are taken, which leaves all calls together one more block. */
  lemma RoomForAllowance(s: Space, op: nat, size: nat)
    requires Reserved(s) && op < |s.ops| && |s.ops[op]| < MAXOPBLOCKS
    ensures size > LOGSIZE ==> HasRoom(s, size)
    ensures size == LOGSIZE ==> (!HasRoom(s, size) <==> |s.lh| == LOGSIZE - 1)
    ensures size == LOGSIZE && !HasRoom(s, size) ==> Unused(s.ops) == 1
  {
    UnusedOf(s.ops, op);
  }

  /** While a commit runs no call is outstanding, and what happens next is the committer's. */
  lemma CommitAlone(s: Space, step: Step, size: nat)
    requires Reserved(s) && s.committing && Enabled(s, step, size)
    ensures s.outstanding == 0 && s.ops == []
    ensures step.Clear? || (step.Done? && s.lh == [])
    ensures Next(s, step).lh == s.lh || (step.Clear? && Next(s, step).lh == [])
  {
  }

  /** A call in progress meets neither the panic of end_op nor that of log_write outside a transaction. */
  lemma InProgress(s: Space, op: nat)
    requires Reserved(s) && op < |s.ops|
    ensures s.outstanding == |s.ops| && !EndPanics(s) && !OutsidePanics(s)
  {
  }

  const START: Space := Space([], 0, false, [])

  /** A run from an empty log, in a log area of the given size. */
  predicate Runs(steps: seq<Step>, size: nat)
    decreases |steps|, 0
  {
    steps == [] ||
    var n := |steps| - 1;
    Runs(steps[..n], size) && Enabled(Exec(steps[..n], size), steps[n], size)
  }

  function Exec(steps: seq<Step>, size: nat): Space
    requires Runs(steps, size)
    decreases |steps|, 1
  {
    if steps == [] then START else Next(Exec(steps[..|steps| - 1], size), steps[|steps| - 1])
  }

  /** Every run keeps the reservation. */
  lemma {:induction false} RunKeepsReserved(steps: seq<Step>, size: nat)
    requires Runs(steps, size)
    ensures Reserved(Exec(steps, size))
  {
    if steps != [] {
      var n := |steps| - 1;
      RunKeepsReserved(steps[..n], size);
      StepKeepsReserved(Exec(steps[..n], size), steps[n], size);
    }
  }

  /** In every run nobody is outstanding while a commit runs, and the header then changes only by being
      emptied by the committer. */
  lemma CommitUndisturbed(steps: seq<Step>, step: Step, size: nat)
    requires Runs(steps, size) && Exec(steps, size).committing && Enabled(Exec(steps, size), step, size)
    ensures var s, s' := Exec(steps, size), Next(Exec(steps, size), step);
            s.outstanding == 0 && s.ops == [] && (s'.lh == s.lh || (step == Clear && s'.lh == []))
  {
    RunKeepsReserved(steps, size);
    CommitAlone(Exec(steps, size), step, size);
  }

  /** In every run a call in progress meets neither the panic of end_op nor that of log_write outside a
      transaction. */
  lemma NeverOutside(steps: seq<Step>, size: nat, op: nat)
    requires Runs(steps, size) && op < |Exec(steps, size).ops|
    ensures !EndPanics(Exec(steps, size)) && !OutsidePanics(Exec(steps, size))
  {
    RunKeepsReserved(steps, size);
  }

  // ----- the guard of log_write is tested before absorption -----

  ghost predicate Reachable(s: Space, size: nat) {
    exists steps :: Runs(steps, size) && Exec(steps, size) == s
  }

  lemma ReachableNext(s: Space, step: Step, size: nat)
    requires Reachable(s, size) && Enabled(s, step, size)
    ensures Reachable(Next(s, step), size)
  {
    var steps :| Runs(steps, size) && Exec(steps, size) == s;
    var more := steps + [step];
    assert more[..|more| - 1] == steps;
    assert Runs(more, size) && Exec(more, size) == Next(s, step);
  }

  /** n consecutive block numbers from lo on. */
  function Span(lo: nat, n: nat): set<nat> { Range(lo, lo + n) }

  function Range(lo: nat, hi: nat): set<nat> {
    set b: nat | b < hi && Between(lo, b, hi)
  }

  predicate Between(lo: nat, b: nat, hi: nat) { lo <= b < hi }

  lemma {:induction false} SpanSize(lo: nat, n: nat)
    ensures |Span(lo, n)| == n
  {
    if n == 0 {
      assert Span(lo, n) == {};
    } else {
      SpanSize(lo, n - 1);
      assert Span(lo, n) == Span(lo, n - 1) + {lo + n - 1};
    }
  }

  /** How many of k logged blocks belong to the i-th call, at ten blocks a call. */
  function Share(i: nat, k: nat): nat {
    if k < 10 * i then 0 else if k < 10 * i + 10 then k - 10 * i else 10
  }

  /** Three calls have logged k blocks between them, the first ten by the first call and so on. */
  function Filled(k: nat): Space {
    Space(seq(k, i requires 0 <= i < k => 100 + i), 3, false,
          [Span(100, Share(0, k)), Span(110, Share(1, k)), Span(120, Share(2, k))])
  }

  lemma SpanStarts(lo: nat, n: nat)
    requires n > 0
    ensures lo in Span(lo, n)
  {
  }

  lemma SpanNext(lo: nat, n: nat)
    ensures Span(lo, n) + {lo + n} == Span(lo, n + 1) && |Span(lo, n) + {lo + n}| == n + 1
  {
    SpanSize(lo, n + 1);
    assert Span(lo, n) + {lo + n} == Span(lo, n + 1);
  }

  lemma FilledNext(k: nat, size: nat)
    requires k < LOGSIZE && k < size - 1
    ensures Enabled(Filled(k), LogWrite(k / 10, 100 + k), size)
    ensures Next(Filled(k), LogWrite(k / 10, 100 + k)) == Filled(k + 1)
  {
    hide Span;
    var s, t, op := Filled(k), Filled(k + 1), k / 10;
    SpanNext(100 + 10 * op, Share(op, k));
    assert s.ops[op := s.ops[op] + {100 + k}] == t.ops;
    assert s.lh + [100 + k] == t.lh;
  }

  lemma ThreeBegin(size: nat)
    ensures Reachable(Space([], 3, false, [{}, {}, {}]), size)
  {
    assert Runs([], size) && Exec([], size) == START;
    var a, b, c := Space([], 1, false, [{}]), Space([], 2, false, [{}, {}]), Space([], 3, false, [{}, {}, {}]);
    assert Next(START, Begin) == a && Next(a, Begin) == b && Next(b, Begin) == c;
    hide Reachable, Next;
    ReachableNext(START, Begin, size);
    ReachableNext(a, Begin, size);
    ReachableNext(b, Begin, size);
  }

  /** Three admitted calls can fill the log up to what its area allows. */
  lemma {:induction false} FillReachable(k: nat, size: nat)
    requires k <= LOGSIZE && k < size
    ensures Reachable(Filled(k), size)
  {
    if k == 0 {
      ThreeBegin(size);
      assert Span(100, 0) == Span(110, 0) == Span(120, 0) == {};
      assert Filled(k) == Space([], 3, false, [{}, {}, {}]);
    } else {
      FillReachable(k - 1, size);
      FilledNext(k - 1, size);
      ReachableNext(Filled(k - 1), LogWrite((k - 1) / 10, 99 + k), size);
    }
  }

  /** With the log area that mkfs makes a call within its allowance can meet the panic: two calls have logged
      ten blocks each, the third nine, and its tenth block finds no room. */
  lemma AllowanceCanPanic(k: nat)
    requires k == LOGSIZE - 1
    ensures Reachable(Filled(k), LOGSIZE)
    ensures |Filled(k).ops[2]| == MAXOPBLOCKS - 1 && 100 + k !in Filled(k).lh
    ensures !HasRoom(Filled(k), LOGSIZE)
  {
    FillReachable(k, LOGSIZE);
    hide Reachable;
    SpanSize(120, 9);
  }

  /** Even with a log area larger than LOGSIZE the panic is reachable: three calls log ten
      distinct blocks each, and then one of them writes again to a block it has already
      logged. The update would be absorbed, but the room test comes first. */
  lemma AbsorbedWriteCanPanic(full: nat, op: nat)
    requires full == LOGSIZE && op < 3
    ensures Reachable(Filled(full), LOGSIZE + 1)
    ensures 100 + 10 * op in Filled(full).ops[op] && |Filled(full).ops[op] + {100 + 10 * op}| <= MAXOPBLOCKS
    ensures !HasRoom(Filled(full), LOGSIZE + 1)
  {
    FillReachable(full, LOGSIZE + 1);
    hide Reachable, Span;
    SpanSize(100 + 10 * op, 10);
    assert Filled(full).ops[op] == Span(100 + 10 * op, 10);
    hide Filled, HasRoom;
    assert 100 + 10 * op in Span(100 + 10 * op, 10) by {
      SpanStarts(100 + 10 * op, 10);
    }
    assert Span(100 + 10 * op, 10) + {100 + 10 * op} == Span(100 + 10 * op, 10);
  }

  /** A repeated write panics exactly when the reservation is used up to the last block. */
  lemma AbsorbedWritePanicsIffFull(s: Space, op: nat, size: nat)
    requires Reserved(s) && op < |s.ops| && size > LOGSIZE
    ensures !HasRoom(s, size) <==> |s.lh| == LOGSIZE
    ensures !HasRoom(s, size) ==> forall i :: 0 <= i < |s.ops| ==> |s.ops[i]| == MAXOPBLOCKS
  {
    forall i | 0 <= i < |s.ops| && !HasRoom(s, size) ensures |s.ops[i]| == MAXOPBLOCKS {
      UnusedOf(s.ops, i);
    }
    UnusedBound(s.ops);
  }
}
