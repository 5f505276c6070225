/** piperead, pipewrite and pipeclose as steps of threads: who sleeps on a pipe, and who wakes them. The bytes
    themselves are in the ring; here only their number counts. */
module PipeWakeup {
  import opened Common
  import opened Pipe

  /** What a thread sleeps on: &pi->nread for bytes to read, &pi->nwrite for room to write. */
  datatype Chan = NREAD | NWRITE

  /** Where a thread is. WriteTest(news) is the head of the loop of pipewrite; news says that bytes have been put in
      since the last wakeup of readers. Waking(c, j, full) is a round of wakeup, after which a writer that found the
      ring full goes to sleep. The others are the parts of sleep. */
  datatype Pc =
    | Outside
    | ReadTest
    | ReadCopy
    | WriteTest(news: bool)
    | Waking(chan: Chan, j: nat, full: bool)
    | TakeOwn(chan: Chan)
    | DropLock(chan: Chan)
    | Mark(chan: Chan)
    | Sched(chan: Chan)
    | Asleep(chan: Chan)
    | Tidy(chan: Chan)
    | Again(chan: Chan)

  /** asleep is p->state == SLEEPING on the channel of pc; locked says that the thread holds its own p->lock. */
  datatype Thread = Thread(pc: Pc, asleep: bool, locked: bool)

  /** count is nwrite - nread. */
  datatype State = State(ths: seq<Thread>, lock: Option<nat>, count: nat, readopen: bool, writeopen: bool)

  predicate At(s: State, i: nat, pc: Pc) { i < |s.ths| && s.ths[i].pc == pc }

  /** Thread i goes to pc; nothing else changes but the lock. */
  predicate Goes(s: State, s': State, i: nat, th: Thread, lock: Option<nat>) {
    i < |s.ths| && s' == s.(ths := s.ths[i := th], lock := lock)
  }

  // ----- piperead -----

  predicate DoRead(s: State, s': State, i: nat) {
    At(s, i, Outside) && s.readopen && s.lock == None && Goes(s, s', i, s.ths[i].(pc := ReadTest), Some(i))
  }

  predicate DoReadTest(s: State, s': State, i: nat, killed: bool) {
    At(s, i, ReadTest) &&
    if s.count == 0 && s.writeopen then
      if killed then Goes(s, s', i, s.ths[i].(pc := Outside), None) else Goes(s, s', i, s.ths[i].(pc := TakeOwn(NREAD)), s.lock)
    else Goes(s, s', i, s.ths[i].(pc := ReadCopy), s.lock)
  }

  predicate DoTake(s: State, s': State, i: nat) {
    At(s, i, ReadCopy) && s.count > 0 && s' == s.(count := s.count - 1)
  }

  predicate DoReadEnd(s: State, s': State, i: nat) {
    At(s, i, ReadCopy) && Goes(s, s', i, s.ths[i].(pc := Waking(NWRITE, 0, false)), s.lock)
  }

  // ----- pipewrite -----

  predicate DoWrite(s: State, s': State, i: nat) {
    At(s, i, Outside) && s.writeopen && s.lock == None && Goes(s, s', i, s.ths[i].(pc := WriteTest(false)), Some(i))
  }

  /** pipewrite returns because the read end is closed. */
  predicate DoWriteClosed(s: State, s': State, i: nat) {
    i < |s.ths| && s.ths[i].pc.WriteTest? && !s.readopen && Goes(s, s', i, s.ths[i].(pc := Outside), None)
  }

  /** pipewrite returns because the writer has been killed. */
  predicate DoWriteKilled(s: State, s': State, i: nat) {
    i < |s.ths| && s.ths[i].pc.WriteTest? && Goes(s, s', i, s.ths[i].(pc := Outside), None)
  }

  predicate DoFull(s: State, s': State, i: nat) {
    i < |s.ths| && s.ths[i].pc.WriteTest? && s.readopen && s.count == PIPESIZE
    && Goes(s, s', i, s.ths[i].(pc := Waking(NREAD, 0, true)), s.lock)
  }

  predicate DoPut(s: State, s': State, i: nat) {
    i < |s.ths| && s.ths[i].pc.WriteTest? && s.readopen && s.count < PIPESIZE
    && s' == s.(ths := s.ths[i := s.ths[i].(pc := WriteTest(true))], count := s.count + 1)
  }

  predicate DoWriteEnd(s: State, s': State, i: nat) {
    i < |s.ths| && s.ths[i].pc.WriteTest? && Goes(s, s', i, s.ths[i].(pc := Waking(NREAD, 0, false)), s.lock)
  }

  // ----- pipeclose: an end is closed when nobody uses it any more -----

  predicate DoCloseWrite(s: State, s': State, i: nat) {
    At(s, i, Outside) && s.writeopen && s.lock == None && (forall k: nat :: k < |s.ths| ==> !Writing(s.ths[k].pc))
    && s' == s.(ths := s.ths[i := s.ths[i].(pc := Waking(NREAD, 0, false))], lock := Some(i), writeopen := false)
  }

  predicate DoCloseRead(s: State, s': State, i: nat) {
    At(s, i, Outside) && s.readopen && s.lock == None && (forall k: nat :: k < |s.ths| ==> !Reading(s.ths[k].pc))
    && s' == s.(ths := s.ths[i := s.ths[i].(pc := Waking(NWRITE, 0, false))], lock := Some(i), readopen := false)
  }

  // ----- wakeup and sleep -----

  function Woken(th: Thread, chan: Chan): Thread {
    if (th.pc == Sched(chan) || th.pc == Asleep(chan)) then th.(asleep := false) else th
  }

  predicate DoWake(s: State, s': State, i: nat) {
    && i < |s.ths| && s.ths[i].pc.Waking?
    && var chan, j, full := s.ths[i].pc.chan, s.ths[i].pc.j, s.ths[i].pc.full;
       if j >= |s.ths| then
         if full then Goes(s, s', i, s.ths[i].(pc := TakeOwn(NWRITE)), s.lock) else Goes(s, s', i, s.ths[i].(pc := Outside), None)
       else if j == i then Goes(s, s', i, s.ths[i].(pc := Waking(chan, j + 1, full)), s.lock)
       else !s.ths[j].locked && s' == s.(ths := s.ths[i := s.ths[i].(pc := Waking(chan, j + 1, full))][j := Woken(s.ths[j], chan)])
  }

  predicate DoSleep(s: State, s': State, i: nat) {
    && i < |s.ths|
    && var th := s.ths[i];
       match th.pc
       case TakeOwn(c) => !th.locked && Goes(s, s', i, th.(pc := DropLock(c), locked := true), s.lock)
       case DropLock(c) => Goes(s, s', i, th.(pc := Mark(c)), None)
       case Mark(c) => Goes(s, s', i, th.(pc := Sched(c), asleep := true), s.lock)
       case Sched(c) => Goes(s, s', i, th.(pc := Asleep(c), locked := false), s.lock)
       case Asleep(c) => !th.asleep && Goes(s, s', i, th.(pc := Tidy(c), locked := true), s.lock)
       case Tidy(c) => Goes(s, s', i, th.(pc := Again(c), locked := false), s.lock)
       case Again(c) => s.lock == None && Goes(s, s', i, th.(pc := if c == NREAD then ReadTest else WriteTest(false)), Some(i))
       case _ => false
  }

  /** A sleeping thread may be woken by others, kill for one. */
  predicate DoStir(s: State, s': State, i: nat) {
    i < |s.ths| && s.ths[i].pc.Asleep? && Goes(s, s', i, s.ths[i].(asleep := false), s.lock)
  }

  ghost predicate ReadMoves(s: State, s': State, i: nat) {
    DoRead(s, s', i) || DoReadTest(s, s', i, true) || DoReadTest(s, s', i, false) || DoTake(s, s', i) || DoReadEnd(s, s', i)
  }

  /** A step of pipewrite, but not the return of a writer that is killed after it has put bytes in. */
  ghost predicate WriteMoves(s: State, s': State, i: nat) {
    || DoWrite(s, s', i) || DoWriteClosed(s, s', i) || (DoWriteKilled(s, s', i) && !s.ths[i].pc.news) || DoFull(s, s', i)
    || DoPut(s, s', i) || DoWriteEnd(s, s', i)
  }

  ghost predicate Moves(s: State, s': State, i: nat) {
    || ReadMoves(s, s', i) || WriteMoves(s, s', i) || DoCloseWrite(s, s', i) || DoCloseRead(s, s', i)
    || DoWake(s, s', i) || DoSleep(s, s', i) || DoStir(s, s', i)
  }

  // ----- what every state satisfies -----

  predicate HasLock(pc: Pc) { pc.ReadTest? || pc.ReadCopy? || pc.WriteTest? || pc.Waking? || pc.TakeOwn? || pc.DropLock? }

  predicate OwnLock(pc: Pc) { pc.DropLock? || pc.Mark? || pc.Sched? || pc.Tidy? }

  predicate Sleeping(pc: Pc) { pc.TakeOwn? || pc.DropLock? || pc.Mark? || pc.Sched? || pc.Asleep? || pc.Tidy? || pc.Again? }

  predicate Reading(pc: Pc) { pc.ReadTest? || pc.ReadCopy? || (Sleeping(pc) && pc.chan == NREAD) }

  predicate Writing(pc: Pc) { pc.WriteTest? || (pc.Waking? && pc.full) || (Sleeping(pc) && pc.chan == NWRITE) }

  /** The thread has decided to sleep and has not been woken since. */
  predicate Committed(th: Thread) {
    th.pc.DropLock? || th.pc.Mark? || th.pc.Sched? || (th.pc.Asleep? && th.asleep)
  }

  /** There is reason to sleep: nothing to read but more to come, or no room but someone to make it. */
  predicate Reason(s: State, chan: Chan) {
    if chan == NREAD then s.count == 0 && s.writeopen else s.count == PIPESIZE && s.readopen
  }

  /** The thread that holds the lock has yet to wake thread i from chan. */
  predicate WillWake(s: State, chan: Chan, i: nat) {
    s.lock.Some? && s.lock.value < |s.ths|
    && var pc := s.ths[s.lock.value].pc;
       (pc.Waking? && pc.chan == chan && pc.j <= i) || (if chan == NREAD then pc == WriteTest(true) else pc == ReadCopy)
  }

  /** Whoever sleeps has reason to, or is about to be woken. */
  predicate SleepOk(s: State, i: nat)
    requires i < |s.ths|
  {
    Committed(s.ths[i]) ==> Reason(s, s.ths[i].pc.chan) || WillWake(s, s.ths[i].pc.chan, i)
  }

  predicate ThreadOk(s: State, i: nat)
    requires i < |s.ths|
  {
    var th := s.ths[i];
    && (HasLock(th.pc) <==> s.lock == Some(i)) && (th.locked <==> OwnLock(th.pc))
    && (th.asleep ==> th.pc.Sched? || th.pc.Asleep?) && (th.pc.Sched? ==> th.asleep)
    && (Reading(th.pc) ==> s.readopen) && (Writing(th.pc) ==> s.writeopen)
    && (th.pc.TakeOwn? || th.pc.DropLock? ==> Reason(s, th.pc.chan))
    && (th.pc.Waking? && th.pc.full ==> th.pc.chan == NREAD && Reason(s, NWRITE))
    && (th.pc == WriteTest(true) ==> s.count > 0)
    && s.count <= PIPESIZE
  }

  ghost predicate Inv(s: State) {
    && (s.lock.Some? ==> s.lock.value < |s.ths|)
    && forall i: nat :: i < |s.ths| ==> ThreadOk(s, i) && SleepOk(s, i)
  }

  /** What is known of the thread that moves and of any other. */
  predicate Both(s: State, i: nat, k: nat) {
    i < |s.ths| && k < |s.ths| && ThreadOk(s, i) && SleepOk(s, i) && ThreadOk(s, k) && SleepOk(s, k)
  }

  lemma ReadOther(s: State, s': State, i: nat, k: nat)
    requires Both(s, i, k) && ReadMoves(s, s', i) && k != i
    ensures k < |s'.ths| && ThreadOk(s', k) && SleepOk(s', k)
  {
  }

  lemma KeepsRead(s: State, s': State, i: nat, k: nat)
    requires Both(s, i, k) && ReadMoves(s, s', i)
    ensures k < |s'.ths| && ThreadOk(s', k) && SleepOk(s', k)
  {
    if k != i {
      ReadOther(s, s', i, k);
    }
  }

  lemma WriteOther(s: State, s': State, i: nat, k: nat)
    requires Both(s, i, k) && WriteMoves(s, s', i) && k != i
    ensures k < |s'.ths| && ThreadOk(s', k) && SleepOk(s', k)
  {
  }

  lemma KeepsWrite(s: State, s': State, i: nat, k: nat)
    requires Both(s, i, k) && WriteMoves(s, s', i)
    ensures k < |s'.ths| && ThreadOk(s', k) && SleepOk(s', k)
  {
    if k != i {
      WriteOther(s, s', i, k);
    }
  }

  lemma KeepsClose(s: State, s': State, i: nat, k: nat)
    requires Both(s, i, k) && (DoCloseWrite(s, s', i) || DoCloseRead(s, s', i))
    ensures k < |s'.ths| && ThreadOk(s', k) && SleepOk(s', k)
  {
  }

  lemma SleepsSelf(s: State, s': State, i: nat)
    requires i < |s.ths| && ThreadOk(s, i) && SleepOk(s, i) && (DoSleep(s, s', i) || DoStir(s, s', i))
    ensures i < |s'.ths| && ThreadOk(s', i) && SleepOk(s', i)
  {
  }

  lemma SleepsOther(s: State, s': State, i: nat, k: nat)
    requires Both(s, i, k) && k != i && (DoSleep(s, s', i) || DoStir(s, s', i))
    ensures k < |s'.ths| && ThreadOk(s', k) && SleepOk(s', k)
  {
    assert s'.ths[k] == s.ths[k] && s'.count == s.count && s'.readopen == s.readopen && s'.writeopen == s.writeopen;
    assert s'.lock == Some(k) <==> s.lock == Some(k);
    assert forall c :: WillWake(s, c, k) ==> WillWake(s', c, k);
    hide WillWake, DoSleep, DoStir, Goes, Committed;
  }

  lemma KeepsSleep(s: State, s': State, i: nat, k: nat)
    requires Both(s, i, k) && (DoSleep(s, s', i) || DoStir(s, s', i))
    ensures k < |s'.ths| && ThreadOk(s', k) && SleepOk(s', k)
  {
    hide ThreadOk, SleepOk, DoSleep, DoStir;
    if k == i {
      SleepsSelf(s, s', i);
    } else {
      SleepsOther(s, s', i, k);
    }
  }

  lemma KeepsWake(s: State, s': State, i: nat, k: nat)
    requires Both(s, i, k) && DoWake(s, s', i)
    ensures k < |s'.ths| && ThreadOk(s', k) && SleepOk(s', k)
  {
  }

  lemma KeepsBoth(s: State, s': State, i: nat, k: nat)
    requires Both(s, i, k) && Moves(s, s', i)
    ensures k < |s'.ths| && ThreadOk(s', k) && SleepOk(s', k)
  {
    hide ThreadOk, SleepOk, Both, ReadMoves, WriteMoves, DoCloseWrite, DoCloseRead, DoWake, DoSleep, DoStir;
    if ReadMoves(s, s', i) {
      KeepsRead(s, s', i, k);
    } else if WriteMoves(s, s', i) {
      KeepsWrite(s, s', i, k);
    } else if DoCloseWrite(s, s', i) || DoCloseRead(s, s', i) {
      KeepsClose(s, s', i, k);
    } else if DoWake(s, s', i) {
      KeepsWake(s, s', i, k);
    } else {
      KeepsSleep(s, s', i, k);
    }
  }

  lemma Shape(s: State, s': State, i: nat)
    requires Moves(s, s', i)
    ensures i < |s.ths| && |s'.ths| == |s.ths| && (s'.lock == s.lock || s'.lock == Some(i) || s'.lock == None)
  {
  }

  lemma StepKeeps(s: State, s': State, i: nat)
    requires Inv(s) && Moves(s, s', i)
    ensures Inv(s')
  {
    hide Moves, ThreadOk, SleepOk;
    Shape(s, s', i);
    forall k: nat | k < |s.ths| ensures ThreadOk(s', k) && SleepOk(s', k) {
      KeepsBoth(s, s', i, k);
    }
  }

  ghost predicate Step(s: State, s': State) {
    exists i: nat :: Moves(s, s', i)
  }

  ghost predicate New(s: State) {
    s == State(s.ths, None, 0, true, true) && forall i: nat :: i < |s.ths| ==> s.ths[i] == Thread(Outside, false, false)
  }

  /** The states of a new pipe, in any interleaving of its users in which no writer is killed after it has put bytes in. */
  ghost predicate Run(ss: seq<State>) {
    0 < |ss| && New(ss[0]) && forall t: nat :: t < |ss| - 1 ==> Step(ss[t], ss[t + 1])
  }

  lemma {:induction false} RunInv(ss: seq<State>, t: nat)
    requires Run(ss) && t < |ss|
    ensures Inv(ss[t])
  {
    hide Moves;
    if t > 0 {
      RunInv(ss, t - 1);
      var u: nat := t - 1;
      assert Step(ss[u], ss[u + 1]);
      var i: nat :| Moves(ss[u], ss[u + 1], i);
      hide Inv;
      StepKeeps(ss[u], ss[u + 1], i);
    }
  }

  /** No lost wakeup: when the lock is free, no reader sleeps on a pipe that has bytes or no writers, and no writer on one
      that has room or no readers. */
  lemma SleepersHaveReason(ss: seq<State>, t: nat, i: nat)
    requires Run(ss) && t < |ss| && i < |ss[t].ths| && ss[t].lock == None && ss[t].ths[i].asleep
    ensures ss[t].ths[i].pc.Sched? || ss[t].ths[i].pc.Asleep?
    ensures Reason(ss[t], ss[t].ths[i].pc.chan)
  {
    RunInv(ss, t);
    assert ThreadOk(ss[t], i) && SleepOk(ss[t], i);
  }

  // ----- a writer that is killed -----

  ghost predicate NobodyForgotten(s: State) {
    forall k: nat :: k < |s.ths| ==> SleepOk(s, k)
  }

  /** A writer that is killed returns without a wakeup. Nobody is forgotten then exactly if it has put nothing in since it last
      woke the readers, or no reader is asleep or on the way there. */
  lemma KilledWriter(s: State, s': State, i: nat)
    requires Inv(s) && DoWriteKilled(s, s', i)
    ensures NobodyForgotten(s') <==>
              !s.ths[i].pc.news || forall k: nat :: k < |s.ths| && Committed(s.ths[k]) ==> s.ths[k].pc.chan != NREAD
  {
    assert ThreadOk(s, i);
    forall k: nat | k < |s.ths|
      ensures SleepOk(s', k) <==> !(s.ths[i].pc.news && Committed(s.ths[k]) && s.ths[k].pc.chan == NREAD)
    {
      assert ThreadOk(s, k) && SleepOk(s, k);
    }
  }

  /** Two threads, a reader and a writer, on an open pipe. */
  function Two(r: Thread, w: Thread, lock: Option<nat>, count: nat): State {
    State([r, w], lock, count, true, true)
  }

  lemma Extend(ss: seq<State>, s': State)
    requires Run(ss) && Step(ss[|ss| - 1], s')
    ensures Run(ss + [s'])
  {
  }

  /** A reader goes to sleep on an empty pipe. */
  lemma SleepingReader() returns (ss: seq<State>)
    ensures 0 < |ss| && Run(ss) && ss[|ss| - 1] == Two(Thread(Asleep(NREAD), true, false), Thread(Outside, false, false), None, 0)
  {
    var out := Thread(Outside, false, false);
    var s0 := Two(out, out, None, 0);
    ss := [s0];
    assert New(s0);
    hide Step, Moves, Run;
    var s1 := Two(Thread(ReadTest, false, false), out, Some(0), 0);
    ReadStep(s0, s1, false);
    Extend(ss, s1);
    ss := ss + [s1];
    var s2 := Two(Thread(TakeOwn(NREAD), false, false), out, Some(0), 0);
    ReadStep(s1, s2, false);
    Extend(ss, s2);
    ss := ss + [s2];
    var s3 := Two(Thread(DropLock(NREAD), false, true), out, Some(0), 0);
    SleepStep(s2, s3);
    Extend(ss, s3);
    ss := ss + [s3];
    var s4 := Two(Thread(Mark(NREAD), false, true), out, None, 0);
    SleepStep(s3, s4);
    Extend(ss, s4);
    ss := ss + [s4];
    var s5 := Two(Thread(Sched(NREAD), true, true), out, None, 0);
    SleepStep(s4, s5);
    Extend(ss, s5);
    ss := ss + [s5];
    var s6 := Two(Thread(Asleep(NREAD), true, false), out, None, 0);
    SleepStep(s5, s6);
    Extend(ss, s6);
    ss := ss + [s6];
  }

  /** A reader that is forgotten: it sleeps on the empty pipe; a writer puts a byte in and is killed. */
  lemma ForgottenReader() returns (ss: seq<State>, last: State)
    ensures Run(ss) && DoWriteKilled(ss[|ss| - 1], last, 1)
    ensures last.lock == None && last.ths[0] == Thread(Asleep(NREAD), true, false) && !Reason(last, NREAD)
  {
    hide Step, Moves, Run;
    var zzz := Thread(Asleep(NREAD), true, false);
    ss := SleepingReader();
    var s7 := Two(zzz, Thread(WriteTest(false), false, false), Some(1), 0);
    WriteStep(ss[|ss| - 1], s7);
    Extend(ss, s7);
    ss := ss + [s7];
    var s8 := Two(zzz, Thread(WriteTest(true), false, false), Some(1), 1);
    WriteStep(s7, s8);
    Extend(ss, s8);
    ss := ss + [s8];
    last := Two(zzz, Thread(Outside, false, false), None, 1);
    assert last.ths == s8.ths[1 := last.ths[1]];
  }

  lemma ReadStep(s: State, s': State, killed: bool)
    requires |s.ths| == |s'.ths| == 2 && s'.ths[1] == s.ths[1]
    requires var t := s'.(ths := s.ths[0 := s'.ths[0]]); DoRead(s, t, 0) || DoReadTest(s, t, 0, killed)
    ensures Step(s, s')
  {
    assert s'.ths == s.ths[0 := s'.ths[0]];
    assert ReadMoves(s, s', 0);
    assert Moves(s, s', 0);
  }

  lemma SleepStep(s: State, s': State)
    requires |s.ths| == |s'.ths| == 2 && s'.ths[1] == s.ths[1] && DoSleep(s, s'.(ths := s.ths[0 := s'.ths[0]]), 0)
    ensures Step(s, s')
  {
    assert s'.ths == s.ths[0 := s'.ths[0]];
    assert Moves(s, s', 0);
  }

  lemma WriteStep(s: State, s': State)
    requires |s.ths| == |s'.ths| == 2 && s'.ths[0] == s.ths[0]
    requires var t := s'.(ths := s.ths[1 := s'.ths[1]]); DoWrite(s, t, 1) || DoPut(s, t, 1)
    ensures Step(s, s')
  {
    assert s'.ths == s.ths[1 := s'.ths[1]];
    assert WriteMoves(s, s', 1);
    assert Moves(s, s', 1);
  }
}
