/** Threads that share data under a spinlock and sleep while they are blocked, for any data and any use that keeps
    to one rule: whoever unblocks a sleeper wakes its channel before it lets go of the lock. Sleep and wakeup are taken
    apart as far as the locks allow others in between. */
module Monitor {
  import opened Common

  /** A use of the lock: what a critical section may do to the data and which channel it wakes then, what
      may be done without the lock, when a thread that wants w has to wait, and on which channel. */
  datatype Client<!D, !W> = Client(
    acts: (D, D, Option<nat>) -> bool, quiet: (D, D) -> bool, blocked: (D, W) -> bool, chan: W -> nat)

  /** The rule. */
  ghost predicate Good<D(!new), W(!new)>(cl: Client<D, W>) {
    && (forall d, d', c, w :: cl.acts(d, d', c) && cl.blocked(d, w) && !cl.blocked(d', w) ==> c == Some(cl.chan(w)))
    && (forall d, d', w :: cl.quiet(d, d') && cl.blocked(d, w) ==> cl.blocked(d', w))
  }

  /** Where a thread is: outside; with the lock; in the parts of sleep; in wakeup, at thread j. */
  datatype Pc<W> =
    | Outside | Inside | TakeOwn(w: W) | DropLock(w: W) | Mark(w: W) | Sched(w: W) | Asleep(w: W) | Tidy | Again
    | Waking(c: nat, j: nat)

  /** asleep is p->state == SLEEPING; locked says that the thread holds its own p->lock. */
  datatype Thread<W> = Thread(pc: Pc<W>, asleep: bool, locked: bool)

  datatype State<D, W> = State(ths: seq<Thread<W>>, lock: Option<nat>, data: D)

  ghost predicate Solo<D, W>(s: State<D, W>, s': State<D, W>, i: nat, th: Thread<W>, lock: Option<nat>, data: D) {
    i < |s.ths| && s' == State(s.ths[i := th], lock, data)
  }

  ghost predicate DoAcquire<D, W>(s: State<D, W>, s': State<D, W>, i: nat) {
    && i < |s.ths| && (s.ths[i].pc.Outside? || s.ths[i].pc.Again?) && s.lock == None
    && Solo(s, s', i, s.ths[i].(pc := Inside), Some(i), s.data)
  }

  ghost predicate DoRelease<D, W>(s: State<D, W>, s': State<D, W>, i: nat) {
    i < |s.ths| && s.ths[i].pc.Inside? && Solo(s, s', i, s.ths[i].(pc := Outside), None, s.data)
  }

  /** A change under the lock, and the wakeup that goes with it. */
  ghost predicate DoAct<D, W>(cl: Client<D, W>, s: State<D, W>, s': State<D, W>, i: nat, c: Option<nat>) {
    && i < |s.ths| && s.ths[i].pc.Inside? && cl.acts(s.data, s'.data, c)
    && Solo(s, s', i, s.ths[i].(pc := if c.Some? then Waking(c.value, 0) else Inside), s.lock, s'.data)
  }

  ghost predicate DoQuiet<D, W>(cl: Client<D, W>, s: State<D, W>, s': State<D, W>, i: nat) {
    i < |s.ths| && s.ths[i].pc.Outside? && cl.quiet(s.data, s'.data) && Solo(s, s', i, s.ths[i], s.lock, s'.data)
  }

  /** sleep, entered by a thread that finds itself blocked. */
  ghost predicate DoSleep<D, W>(cl: Client<D, W>, s: State<D, W>, s': State<D, W>, i: nat, w: W) {
    && i < |s.ths| && s.ths[i].pc.Inside? && cl.blocked(s.data, w)
    && Solo(s, s', i, s.ths[i].(pc := TakeOwn(w)), s.lock, s.data)
  }

  ghost predicate DoTakeOwn<D, W>(s: State<D, W>, s': State<D, W>, i: nat) {
    && i < |s.ths| && s.ths[i].pc.TakeOwn? && !s.ths[i].locked
    && Solo(s, s', i, s.ths[i].(pc := DropLock(s.ths[i].pc.w), locked := true), s.lock, s.data)
  }

  ghost predicate DoDropLock<D, W>(s: State<D, W>, s': State<D, W>, i: nat) {
    i < |s.ths| && s.ths[i].pc.DropLock? && Solo(s, s', i, s.ths[i].(pc := Mark(s.ths[i].pc.w)), None, s.data)
  }

  ghost predicate DoMark<D, W>(s: State<D, W>, s': State<D, W>, i: nat) {
    i < |s.ths| && s.ths[i].pc.Mark? && Solo(s, s', i, s.ths[i].(pc := Sched(s.ths[i].pc.w), asleep := true), s.lock, s.data)
  }

  ghost predicate DoSched<D, W>(s: State<D, W>, s': State<D, W>, i: nat) {
    i < |s.ths| && s.ths[i].pc.Sched? && Solo(s, s', i, s.ths[i].(pc := Asleep(s.ths[i].pc.w), locked := false), s.lock, s.data)
  }

  /** A sleeping thread may be woken by others, kill for one. */
  ghost predicate DoStir<D, W>(s: State<D, W>, s': State<D, W>, i: nat) {
    i < |s.ths| && s.ths[i].pc.Asleep? && !s.ths[i].locked && Solo(s, s', i, s.ths[i].(asleep := false), s.lock, s.data)
  }

  ghost predicate DoResume<D, W>(s: State<D, W>, s': State<D, W>, i: nat) {
    && i < |s.ths| && s.ths[i].pc.Asleep? && !s.ths[i].asleep && !s.ths[i].locked
    && Solo(s, s', i, s.ths[i].(pc := Tidy, locked := true), s.lock, s.data)
  }

  ghost predicate DoTidy<D, W>(s: State<D, W>, s': State<D, W>, i: nat) {
    i < |s.ths| && s.ths[i].pc.Tidy? && Solo(s, s', i, s.ths[i].(pc := Again, locked := false), s.lock, s.data)
  }

  /** Does wakeup of channel c concern the thread? */
  ghost predicate SleepsOn<D, W>(cl: Client<D, W>, th: Thread<W>, c: nat) {
    th.asleep && (th.pc.Sched? || th.pc.Asleep?) && cl.chan(th.pc.w) == c
  }

  /** One round of wakeup, or its end. */
  ghost predicate DoWake<D, W>(cl: Client<D, W>, s: State<D, W>, s': State<D, W>, i: nat) {
    && i < |s.ths| && s.ths[i].pc.Waking?
    && var c, j := s.ths[i].pc.c, s.ths[i].pc.j;
       if j >= |s.ths| then Solo(s, s', i, s.ths[i].(pc := Inside), s.lock, s.data)
       else if j == i || (!s.ths[j].locked && !SleepsOn(cl, s.ths[j], c)) then
         Solo(s, s', i, s.ths[i].(pc := Waking(c, j + 1)), s.lock, s.data)
       else !s.ths[j].locked
            && s' == s.(ths := s.ths[i := s.ths[i].(pc := Waking(c, j + 1))][j := s.ths[j].(asleep := false)])
  }

  ghost predicate Moves<D(!new), W(!new)>(cl: Client<D, W>, s: State<D, W>, s': State<D, W>, i: nat) {
    || DoAcquire(s, s', i) || DoRelease(s, s', i) || DoQuiet(cl, s, s', i) || DoTakeOwn(s, s', i) || DoDropLock(s, s', i)
    || DoMark(s, s', i) || DoSched(s, s', i) || DoStir(s, s', i) || DoResume(s, s', i) || DoTidy(s, s', i)
    || DoWake(cl, s, s', i) || (exists c :: DoAct(cl, s, s', i, c)) || (exists w :: DoSleep(cl, s, s', i, w))
  }

  // ----- what every state satisfies -----

  ghost predicate HasLock<W>(pc: Pc<W>) { pc.Inside? || pc.TakeOwn? || pc.DropLock? || pc.Waking? }

  ghost predicate OwnLock<W>(pc: Pc<W>) { pc.DropLock? || pc.Mark? || pc.Sched? || pc.Tidy? }

  /** The thread has decided to sleep and has not been woken since. */
  ghost predicate Committed<W>(th: Thread<W>) {
    th.pc.DropLock? || th.pc.Mark? || th.pc.Sched? || (th.pc.Asleep? && th.asleep)
  }

  /** The holder of the lock has yet to wake thread i, on channel c. */
  ghost predicate WillWake<D, W>(s: State<D, W>, i: nat, c: nat) {
    && s.lock.Some? && s.lock.value < |s.ths| && s.ths[s.lock.value].pc.Waking?
    && s.ths[s.lock.value].pc.c == c && s.ths[s.lock.value].pc.j <= i
  }

  ghost predicate ThreadOk<D, W>(cl: Client<D, W>, s: State<D, W>, i: nat)
    requires i < |s.ths|
  {
    var th := s.ths[i];
    && (HasLock(th.pc) <==> s.lock == Some(i)) && (th.locked <==> OwnLock(th.pc))
    && (th.asleep ==> th.pc.Sched? || th.pc.Asleep?) && (th.pc.Sched? ==> th.asleep)
    && (th.pc.TakeOwn? || th.pc.DropLock? ==> cl.blocked(s.data, th.pc.w))
    && (Committed(th) ==> cl.blocked(s.data, th.pc.w) || WillWake(s, i, cl.chan(th.pc.w)))
  }

  ghost predicate Inv<D, W>(cl: Client<D, W>, s: State<D, W>) {
    && (s.lock.Some? ==> s.lock.value < |s.ths|)
    && forall i: nat :: i < |s.ths| ==> ThreadOk(cl, s, i)
  }

  lemma KeepsWaking<D(!new), W(!new)>(cl: Client<D, W>, s: State<D, W>, s': State<D, W>, i: nat, k: nat)
    requires i < |s.ths| && k < |s.ths| && ThreadOk(cl, s, i) && ThreadOk(cl, s, k) && DoWake(cl, s, s', i)
    ensures |s'.ths| == |s.ths| && ThreadOk(cl, s', k)
  {
  }

  lemma KeepsAct<D(!new), W(!new)>(cl: Client<D, W>, s: State<D, W>, s': State<D, W>, i: nat, c: Option<nat>, k: nat)
    requires i < |s.ths| && k < |s.ths| && ThreadOk(cl, s, i) && ThreadOk(cl, s, k) && DoAct(cl, s, s', i, c) && Good(cl)
    ensures |s'.ths| == |s.ths| && ThreadOk(cl, s', k)
  {
  }

  lemma KeepsSleep<D(!new), W(!new)>(cl: Client<D, W>, s: State<D, W>, s': State<D, W>, i: nat, w: W, k: nat)
    requires i < |s.ths| && k < |s.ths| && ThreadOk(cl, s, i) && ThreadOk(cl, s, k) && DoSleep(cl, s, s', i, w)
    ensures |s'.ths| == |s.ths| && ThreadOk(cl, s', k)
  {
  }

  /** The steps in which a thread changes only itself and the lock. */
  ghost predicate Plain<D(!new), W(!new)>(s: State<D, W>, s': State<D, W>, i: nat) {
    || DoAcquire(s, s', i) || DoRelease(s, s', i) || DoTakeOwn(s, s', i) || DoDropLock(s, s', i) || DoMark(s, s', i)
    || DoSched(s, s', i) || DoStir(s, s', i) || DoResume(s, s', i) || DoTidy(s, s', i)
  }

  lemma PlainSelf<D(!new), W(!new)>(cl: Client<D, W>, s: State<D, W>, s': State<D, W>, i: nat)
    requires i < |s.ths| && ThreadOk(cl, s, i) && Plain(s, s', i)
    ensures |s'.ths| == |s.ths| && ThreadOk(cl, s', i)
  {
  }

  lemma PlainOther<D(!new), W(!new)>(cl: Client<D, W>, s: State<D, W>, s': State<D, W>, i: nat, k: nat)
    requires i < |s.ths| && k < |s.ths| && i != k && ThreadOk(cl, s, i) && ThreadOk(cl, s, k) && Plain(s, s', i)
    ensures |s'.ths| == |s.ths| && ThreadOk(cl, s', k)
  {
  }

  lemma KeepsQuiet<D(!new), W(!new)>(cl: Client<D, W>, s: State<D, W>, s': State<D, W>, i: nat, k: nat)
    requires i < |s.ths| && k < |s.ths| && ThreadOk(cl, s, k) && DoQuiet(cl, s, s', i) && Good(cl)
    ensures |s'.ths| == |s.ths| && ThreadOk(cl, s', k)
  {
  }

  lemma StepKeeps<D(!new), W(!new)>(cl: Client<D, W>, s: State<D, W>, s': State<D, W>, i: nat)
    requires Good(cl) && Inv(cl, s) && Moves(cl, s, s', i)
    ensures Inv(cl, s')
  {
    assert i < |s.ths| && |s'.ths| == |s.ths| && (s'.lock == s.lock || s'.lock == Some(i) || s'.lock == None);
    hide ThreadOk, Good;
    forall k: nat | k < |s.ths| ensures ThreadOk(cl, s', k) {
      if c :| DoAct(cl, s, s', i, c) {
        KeepsAct(cl, s, s', i, c, k);
      } else if w :| DoSleep(cl, s, s', i, w) {
        KeepsSleep(cl, s, s', i, w, k);
      } else if DoWake(cl, s, s', i) {
        KeepsWaking(cl, s, s', i, k);
      } else if DoQuiet(cl, s, s', i) {
        KeepsQuiet(cl, s, s', i, k);
      } else if k == i {
        PlainSelf(cl, s, s', i);
      } else {
        PlainOther(cl, s, s', i, k);
      }
    }
  }

  ghost predicate Step<D(!new), W(!new)>(cl: Client<D, W>, s: State<D, W>, s': State<D, W>) {
    exists i: nat :: Moves(cl, s, s', i)
  }

  /** The states of any interleaving that begins with everybody outside. */
  ghost predicate Run<D(!new), W(!new)>(cl: Client<D, W>, ss: seq<State<D, W>>) {
    && 0 < |ss| && ss[0].lock == None
    && (forall i: nat :: i < |ss[0].ths| ==> ss[0].ths[i] == Thread(Outside, false, false))
    && forall t: nat :: t < |ss| - 1 ==> Step(cl, ss[t], ss[t + 1])
  }

  lemma {:induction false} RunInv<D(!new), W(!new)>(cl: Client<D, W>, ss: seq<State<D, W>>, t: nat)
    requires Good(cl) && Run(cl, ss) && t < |ss|
    ensures Inv(cl, ss[t])
  {
    hide Moves, Good;
    if t > 0 {
      RunInv(cl, ss, t - 1);
      var u: nat := t - 1;
      assert Step(cl, ss[u], ss[u + 1]);
      var i: nat :| Moves(cl, ss[u], ss[u + 1], i);
      hide Inv;
      StepKeeps(cl, ss[u], ss[u + 1], i);
    }
  }

  /** No lost wakeup: when the lock is free, whoever sleeps is blocked. */
  lemma SleepersBlocked<D(!new), W(!new)>(cl: Client<D, W>, ss: seq<State<D, W>>, t: nat, i: nat)
    requires Good(cl) && Run(cl, ss) && t < |ss| && ss[t].lock == None && i < |ss[t].ths| && ss[t].ths[i].asleep
    ensures ss[t].ths[i].pc.Sched? || ss[t].ths[i].pc.Asleep?
    ensures cl.blocked(ss[t].data, ss[t].ths[i].pc.w)
  {
    RunInv(cl, ss, t);
    assert ThreadOk(cl, ss[t], i);
  }
}
