/** acquiresleep and releasesleep as steps of threads: sleep and wakeup are taken apart as far as the locks
    allow others in between. */
module SleepLock {
  import opened Common

  /** Where a thread is: outside; testing lk->locked; the parts of sleep; with the lock taken and lk->lk still
      held; with the lock; about to give it up; in wakeup. */
  datatype Pc =
    | Outside | Test | TakeOwn | DropSpin | Mark | Sched | Asleep | Tidy | Again | Taken | Has | GiveUp | Waking(j: nat)

  /** asleep is p->state == SLEEPING on this lock; locked says that the thread holds its own p->lock. */
  datatype Thread = Thread(pc: Pc, asleep: bool, locked: bool)

  /** spin is the holder of lk->lk; owner is the thread for which lk->locked was set, if it is. */
  datatype State = State(ths: seq<Thread>, spin: Option<nat>, owner: Option<nat>)

  predicate Solo(s: State, s': State, i: nat, th: Thread, spin: Option<nat>, owner: Option<nat>) {
    i < |s.ths| && s' == State(s.ths[i := th], spin, owner)
  }

  predicate At(s: State, i: nat, pc: Pc) { i < |s.ths| && s.ths[i].pc == pc }

  /** acquiresleep takes lk->lk, at first and after each sleep. */
  predicate DoAcquire(s: State, s': State, i: nat) {
    (At(s, i, Outside) || (At(s, i, Again) && !s.ths[i].asleep)) && s.spin == None
    && Solo(s, s', i, s.ths[i].(pc := Test), Some(i), s.owner)
  }

  /** The test of the loop: sleep if the lock is taken, take it otherwise. */
  predicate DoTest(s: State, s': State, i: nat) {
    At(s, i, Test) && if s.owner.Some? then Solo(s, s', i, s.ths[i].(pc := TakeOwn), s.spin, s.owner)
                      else Solo(s, s', i, s.ths[i].(pc := Taken), s.spin, Some(i))
  }

  predicate DoRelease(s: State, s': State, i: nat) {
    At(s, i, Taken) && Solo(s, s', i, s.ths[i].(pc := Has), None, s.owner)
  }

  /** sleep. */
  predicate DoTakeOwn(s: State, s': State, i: nat) {
    At(s, i, TakeOwn) && !s.ths[i].locked && Solo(s, s', i, s.ths[i].(pc := DropSpin, locked := true), s.spin, s.owner)
  }

  predicate DoDropSpin(s: State, s': State, i: nat) {
    At(s, i, DropSpin) && Solo(s, s', i, s.ths[i].(pc := Mark), None, s.owner)
  }

  predicate DoMark(s: State, s': State, i: nat) {
    At(s, i, Mark) && Solo(s, s', i, s.ths[i].(pc := Sched, asleep := true), s.spin, s.owner)
  }

  predicate DoSched(s: State, s': State, i: nat) {
    At(s, i, Sched) && Solo(s, s', i, s.ths[i].(pc := Asleep, locked := false), s.spin, s.owner)
  }

  /** A sleeping thread may be woken by others, kill for one. */
  predicate DoStir(s: State, s': State, i: nat) {
    At(s, i, Asleep) && !s.ths[i].locked && Solo(s, s', i, s.ths[i].(asleep := false), s.spin, s.owner)
  }

  predicate DoResume(s: State, s': State, i: nat) {
    At(s, i, Asleep) && !s.ths[i].asleep && !s.ths[i].locked && Solo(s, s', i, s.ths[i].(pc := Tidy, locked := true), s.spin, s.owner)
  }

  predicate DoTidy(s: State, s': State, i: nat) {
    At(s, i, Tidy) && Solo(s, s', i, s.ths[i].(pc := Again, locked := false), s.spin, s.owner)
  }

  /** releasesleep, by the thread that has the lock. */
  predicate DoGiveUp(s: State, s': State, i: nat) {
    At(s, i, Has) && s.spin == None && Solo(s, s', i, s.ths[i].(pc := GiveUp), Some(i), s.owner)
  }

  predicate DoClear(s: State, s': State, i: nat) {
    At(s, i, GiveUp) && Solo(s, s', i, s.ths[i].(pc := Waking(0)), s.spin, None)
  }

  /** One round of wakeup, or the end of releasesleep. */
  predicate DoWake(s: State, s': State, i: nat) {
    && i < |s.ths| && s.ths[i].pc.Waking?
    && var j := s.ths[i].pc.j;
       if j >= |s.ths| then Solo(s, s', i, s.ths[i].(pc := Outside), None, s.owner)
       else if j == i then Solo(s, s', i, s.ths[i].(pc := Waking(j + 1)), s.spin, s.owner)
       else !s.ths[j].locked && s' == s.(ths := s.ths[i := s.ths[i].(pc := Waking(j + 1))][j := s.ths[j].(asleep := false)])
  }

  ghost predicate Moves(s: State, s': State, i: nat) {
    || DoAcquire(s, s', i) || DoTest(s, s', i) || DoRelease(s, s', i) || DoTakeOwn(s, s', i) || DoDropSpin(s, s', i)
    || DoMark(s, s', i) || DoSched(s, s', i) || DoStir(s, s', i) || DoResume(s, s', i) || DoTidy(s, s', i)
    || DoGiveUp(s, s', i) || DoClear(s, s', i) || DoWake(s, s', i)
  }

  // ----- what every state satisfies -----

  predicate HasSpin(pc: Pc) { pc.Test? || pc.TakeOwn? || pc.DropSpin? || pc.Taken? || pc.GiveUp? || pc.Waking? }

  predicate OwnLock(pc: Pc) { pc.DropSpin? || pc.Mark? || pc.Sched? || pc.Tidy? }

  predicate Owns(pc: Pc) { pc.Taken? || pc.Has? || pc.GiveUp? }

  /** The thread has decided to sleep and has not been woken since. */
  predicate Committed(th: Thread) {
    th.pc == DropSpin || th.pc == Mark || th.pc == Sched || (th.pc == Asleep && th.asleep)
  }

  /** The thread that holds lk->lk has yet to wake thread i. */
  predicate WillWake(s: State, i: nat) {
    s.spin.Some? && s.spin.value < |s.ths| && s.ths[s.spin.value].pc.Waking? && s.ths[s.spin.value].pc.j <= i
  }

  predicate ThreadOk(s: State, i: nat)
    requires i < |s.ths|
  {
    var th := s.ths[i];
    && (HasSpin(th.pc) <==> s.spin == Some(i)) && (th.locked <==> OwnLock(th.pc)) && (Owns(th.pc) <==> s.owner == Some(i))
    && (th.asleep ==> th.pc == Sched || th.pc == Asleep) && (th.pc == Sched ==> th.asleep)
    && (th.pc == TakeOwn || th.pc == DropSpin ==> s.owner.Some?)
    && (Committed(th) ==> s.owner.Some? || WillWake(s, i))
  }

  ghost predicate Inv(s: State) {
    && (s.spin.Some? ==> s.spin.value < |s.ths|)
    && forall i: nat :: i < |s.ths| ==> ThreadOk(s, i)
  }

  lemma KeepsSelf(s: State, s': State, i: nat)
    requires i < |s.ths| && ThreadOk(s, i) && Moves(s, s', i) && !s.ths[i].pc.Waking?
    ensures |s'.ths| == |s.ths| && ThreadOk(s', i)
  {
  }

  lemma KeepsOther(s: State, s': State, i: nat, k: nat)
    requires i < |s.ths| && k < |s.ths| && i != k && ThreadOk(s, i) && ThreadOk(s, k) && Moves(s, s', i) && !s.ths[i].pc.Waking?
    ensures |s'.ths| == |s.ths| && ThreadOk(s', k)
  {
  }

  lemma KeepsWaking(s: State, s': State, i: nat, k: nat)
    requires i < |s.ths| && k < |s.ths| && ThreadOk(s, i) && ThreadOk(s, k) && DoWake(s, s', i)
    ensures ThreadOk(s', k)
  {
  }

  lemma StepKeeps(s: State, s': State, i: nat)
    requires Inv(s) && Moves(s, s', i)
    ensures Inv(s')
  {
    assert i < |s.ths| && |s'.ths| == |s.ths| && (s'.spin == s.spin || s'.spin == Some(i) || s'.spin == None);
    hide ThreadOk;
    forall k: nat | k < |s.ths| ensures ThreadOk(s', k) {
      if s.ths[i].pc.Waking? {
        KeepsWaking(s, s', i, k);
      } else {
        hide Moves;
        if k == i {
          KeepsSelf(s, s', i);
        } else {
          KeepsOther(s, s', i, k);
        }
      }
    }
  }

  ghost predicate Step(s: State, s': State) {
    exists i: nat :: Moves(s, s', i)
  }

  /** The states of a sleep lock that was free at first, in any interleaving of its users. */
  ghost predicate Run(ss: seq<State>) {
    && 0 < |ss| && ss[0].spin == None && ss[0].owner == None
    && (forall i: nat :: i < |ss[0].ths| ==> ss[0].ths[i] == Thread(Outside, false, false))
    && forall t: nat :: t < |ss| - 1 ==> Step(ss[t], ss[t + 1])
  }

  lemma {:induction false} RunInv(ss: seq<State>, t: nat)
    requires Run(ss) && t < |ss|
    ensures Inv(ss[t])
  {
    hide Moves;
    if t > 0 {
      RunInv(ss, t - 1);
      var u: nat := t - 1;
      assert Step(ss[u], ss[u + 1]);
      var i: nat :| Moves(ss[u], ss[u + 1], i);
      hide Inv;
      StepKeeps(ss[u], ss[u + 1], i);
    }
  }

  /** No lost wakeup: when the spinlock is free and the sleep lock is not taken, nobody sleeps on it. */
  lemma NobodySleeps(ss: seq<State>, t: nat, i: nat)
    requires Run(ss) && t < |ss| && i < |ss[t].ths| && ss[t].spin == None && ss[t].owner == None
    ensures !ss[t].ths[i].asleep
  {
    RunInv(ss, t);
    assert ThreadOk(ss[t], i);
  }

  /** At most one thread has the lock, and whoever has it is the one that lk->locked was set for. */
  lemma OneOwner(ss: seq<State>, t: nat, i: nat, j: nat)
    requires Run(ss) && t < |ss| && i < |ss[t].ths| && j < |ss[t].ths| && ss[t].ths[i].pc == Has && Owns(ss[t].ths[j].pc)
    ensures i == j && ss[t].owner == Some(i)
  {
    RunInv(ss, t);
    assert ThreadOk(ss[t], i) && ThreadOk(ss[t], j);
  }
}
