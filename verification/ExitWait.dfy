/** exit, wait and fork as steps of processes that share the process table. Every critical section of a
    process's own lock is one step, taken when that lock is free; sleep and exit, which keep their own lock
    across other actions, are split, and so are the loops over the table. */
module ExitWait {
  import opened Common

  datatype Status = UNUSED | USED | SLEEPING | RUNNABLE | RUNNING | ZOMBIE

  /** Where a process is. Elsewhere stands for everything outside exit, wait and fork. */
  datatype Pc =
    | Elsewhere
    | ExitReparent(k: nat)
    | ExitWakeInit(k: nat, j: nat)
    | ExitWake(j: nat)
    | ExitLock
    | ExitMark
    | ExitRelease
    | ExitSched
    | Gone
    | WaitAcquire
    | WaitScan(k: nat, kids: bool)
    | WaitLock
    | WaitRelease
    | WaitMark
    | WaitSched
    | WaitAsleep
    | WaitTidy
    | ForkAlloc(np: nat)
    | ForkParent(np: nat)

  /** A slot of the process table. chan is the process whose address it sleeps on, if it is one; locked says
      that the process holds its own lock between two steps. */
  datatype Proc = Proc(status: Status, parent: Option<nat>, chan: Option<nat>, pid: nat, xstate: int, locked: bool, pc: Pc)

  /** exited and reaped record, by pid, the status given to exit and the status that wait delivered. */
  datatype State = State(procs: seq<Proc>, waitLock: Option<nat>, nextpid: nat, exited: map<nat, int>, reaped: map<nat, int>)

  /** The slot of the first process. */
  const INIT: nat := 0

  /** A slot as freeproc leaves it. */
  const FREE: Proc := Proc(UNUSED, None, None, 0, 0, false, Elsewhere)

  // ----- steps -----

  /** Process p alone changes, and perhaps wait_lock. */
  predicate Solo(s: State, s': State, p: nat, pr: Proc, lock: Option<nat>) {
    p < |s.procs| && s' == s.(procs := s.procs[p := pr], waitLock := lock)
  }

  predicate Running(s: State, p: nat, pc: Pc) {
    p < |s.procs| && s.procs[p].status == RUNNING && s.procs[p].pc == pc
  }

  predicate Unlocked(s: State, j: nat) { j < |s.procs| && !s.procs[j].locked }

  /** exit takes wait_lock. */
  predicate DoExit(s: State, s': State, p: nat) {
    Running(s, p, Elsewhere) && p != INIT && s.waitLock == None && Solo(s, s', p, s.procs[p].(pc := ExitReparent(0)), Some(p))
  }

  /** The state after child k of p has gone to the first process. */
  function Handed(s: State, p: nat, k: nat): State
    requires p < |s.procs| && k < |s.procs|
  {
    s.(procs := s.procs[p := s.procs[p].(pc := ExitWakeInit(k, 0))][k := s.procs[k].(parent := Some(INIT))])
  }

  /** One round of reparent: a child of p goes to the first process, which p then wakes. */
  predicate DoReparent(s: State, s': State, p: nat) {
    && p < |s.procs| && s.procs[p].pc.ExitReparent?
    && var k := s.procs[p].pc.k;
       if k >= |s.procs| then Solo(s, s', p, s.procs[p].(pc := ExitWake(0)), s.waitLock)
       else if s.procs[k].parent != Some(p) then Solo(s, s', p, s.procs[p].(pc := ExitReparent(k + 1)), s.waitLock)
       else k != p && s' == Handed(s, p, k)
  }

  /** One round of wakeup for slot j. */
  function Woken(pr: Proc, chan: Option<nat>): Proc {
    if pr.status == SLEEPING && chan.Some? && pr.chan == chan then pr.(status := RUNNABLE) else pr
  }

  /** One round of wakeup(initproc) within reparent, or its end. */
  predicate DoWakeInit(s: State, s': State, p: nat) {
    && p < |s.procs| && s.procs[p].pc.ExitWakeInit?
    && var k, j := s.procs[p].pc.k, s.procs[p].pc.j;
       if j >= |s.procs| then Solo(s, s', p, s.procs[p].(pc := ExitReparent(k + 1)), s.waitLock)
       else if j == p then Solo(s, s', p, s.procs[p].(pc := ExitWakeInit(k, j + 1)), s.waitLock)
       else Unlocked(s, j)
            && s' == s.(procs := s.procs[p := s.procs[p].(pc := ExitWakeInit(k, j + 1))][j := Woken(s.procs[j], Some(INIT))])
  }

  /** One round of wakeup(p->parent), or its end. */
  predicate DoWake(s: State, s': State, p: nat) {
    && p < |s.procs| && s.procs[p].pc.ExitWake?
    && var j := s.procs[p].pc.j;
       if j >= |s.procs| then Solo(s, s', p, s.procs[p].(pc := ExitLock), s.waitLock)
       else if j == p then Solo(s, s', p, s.procs[p].(pc := ExitWake(j + 1)), s.waitLock)
       else Unlocked(s, j)
            && s' == s.(procs := s.procs[p := s.procs[p].(pc := ExitWake(j + 1))][j := Woken(s.procs[j], s.procs[p].parent)])
  }

  /** exit takes the process's own lock, becomes a zombie, gives up wait_lock, and enters the scheduler,
      which releases the process's lock. */
  predicate DoExitLock(s: State, s': State, p: nat) {
    p < |s.procs| && s.procs[p].pc == ExitLock && Unlocked(s, p) && Solo(s, s', p, s.procs[p].(locked := true, pc := ExitMark), s.waitLock)
  }

  predicate DoExitMark(s: State, s': State, p: nat, xstate: int) {
    p < |s.procs| && s.procs[p].pc == ExitMark
    && s' == s.(procs := s.procs[p := s.procs[p].(xstate := xstate, status := ZOMBIE, pc := ExitRelease)],
                exited := s.exited[s.procs[p].pid := xstate])
  }

  predicate DoExitRelease(s: State, s': State, p: nat) {
    p < |s.procs| && s.procs[p].pc == ExitRelease && Solo(s, s', p, s.procs[p].(pc := ExitSched), None)
  }

  predicate DoExitSched(s: State, s': State, p: nat) {
    p < |s.procs| && s.procs[p].pc == ExitSched && Solo(s, s', p, s.procs[p].(locked := false, pc := Gone), s.waitLock)
  }

  /** wait takes wait_lock and starts to scan the table. */
  predicate DoWait(s: State, s': State, p: nat) {
    (Running(s, p, Elsewhere) || Running(s, p, WaitAcquire)) && s.waitLock == None
    && Solo(s, s', p, s.procs[p].(pc := WaitScan(0, false)), Some(p))
  }

  /** One round of the scan. A zombie child is reaped unless its status cannot be copied out; after the last slot
      the caller gives up if it has no children or has been killed. */
  predicate DoScan(s: State, s': State, p: nat, copied: bool, killed: bool) {
    && p < |s.procs| && s.procs[p].pc.WaitScan?
    && var k, kids, pr := s.procs[p].pc.k, s.procs[p].pc.kids, s.procs[p];
       if k >= |s.procs| then
         if !kids || killed then Solo(s, s', p, pr.(pc := Elsewhere), None) else Solo(s, s', p, pr.(pc := WaitLock), s.waitLock)
       else if s.procs[k].parent != Some(p) then Solo(s, s', p, pr.(pc := WaitScan(k + 1, kids)), s.waitLock)
       else
         && Unlocked(s, k)
         && if s.procs[k].status != ZOMBIE then Solo(s, s', p, pr.(pc := WaitScan(k + 1, true)), s.waitLock)
            else if !copied then Solo(s, s', p, pr.(pc := Elsewhere), None)
            else k != p && s' == s.(procs := s.procs[p := pr.(pc := Elsewhere)][k := FREE], waitLock := None,
                                    reaped := s.reaped[s.procs[k].pid := s.procs[k].xstate])
  }

  /** sleep takes the process's own lock, gives up wait_lock, marks the process asleep, and enters the scheduler. */
  predicate DoSleepLock(s: State, s': State, p: nat) {
    p < |s.procs| && s.procs[p].pc == WaitLock && Unlocked(s, p) && Solo(s, s', p, s.procs[p].(locked := true, pc := WaitRelease), s.waitLock)
  }

  predicate DoSleepRelease(s: State, s': State, p: nat) {
    p < |s.procs| && s.procs[p].pc == WaitRelease && Solo(s, s', p, s.procs[p].(pc := WaitMark), None)
  }

  predicate DoSleepMark(s: State, s': State, p: nat) {
    p < |s.procs| && s.procs[p].pc == WaitMark && Solo(s, s', p, s.procs[p].(chan := Some(p), status := SLEEPING, pc := WaitSched), s.waitLock)
  }

  predicate DoSleepSched(s: State, s': State, p: nat) {
    p < |s.procs| && s.procs[p].pc == WaitSched && Solo(s, s', p, s.procs[p].(locked := false, pc := WaitAsleep), s.waitLock)
  }

  /** The scheduler runs p. A process that comes out of sleep holds its own lock until it has tidied up. */
  predicate DoSchedule(s: State, s': State, p: nat) {
    && p < |s.procs| && s.procs[p].status == RUNNABLE && Unlocked(s, p)
    && var pr := s.procs[p].(status := RUNNING);
       Solo(s, s', p, if pr.pc == WaitAsleep then pr.(locked := true, pc := WaitTidy) else pr, s.waitLock)
  }

  predicate DoTidy(s: State, s': State, p: nat) {
    p < |s.procs| && s.procs[p].pc == WaitTidy && Solo(s, s', p, s.procs[p].(chan := None, locked := false, pc := WaitAcquire), s.waitLock)
  }

  predicate DoYield(s: State, s': State, p: nat) {
    && p < |s.procs| && s.procs[p].status == RUNNING && Unlocked(s, p) && !Holding(s.procs[p].pc)
    && Solo(s, s', p, s.procs[p].(status := RUNNABLE), s.waitLock)
  }

  /** Sleep on something that is not a process, and any wakeup from that, or by kill. */
  predicate DoOtherSleep(s: State, s': State, p: nat) {
    Running(s, p, Elsewhere) && Solo(s, s', p, s.procs[p].(status := SLEEPING), s.waitLock)
  }

  predicate DoOtherWake(s: State, s': State, p: nat) {
    p < |s.procs| && s.procs[p].status == SLEEPING && Unlocked(s, p) && Solo(s, s', p, s.procs[p].(status := RUNNABLE), s.waitLock)
  }

  /** fork takes a free slot, gives it up again if there is no memory, enters itself as the parent, and lets it run. */
  predicate DoFork(s: State, s': State, p: nat, np: nat) {
    Running(s, p, Elsewhere) && Unlocked(s, np) && s.procs[np].status == UNUSED
    && s' == s.(procs := s.procs[p := s.procs[p].(pc := ForkAlloc(np))][np := FREE.(status := USED, pid := s.nextpid)], nextpid := s.nextpid + 1)
  }

  predicate DoForkFail(s: State, s': State, p: nat, np: nat) {
    Running(s, p, ForkAlloc(np)) && np < |s.procs| && np != p && s' == s.(procs := s.procs[p := s.procs[p].(pc := Elsewhere)][np := FREE])
  }

  predicate DoForkParent(s: State, s': State, p: nat, np: nat) {
    Running(s, p, ForkAlloc(np)) && np < |s.procs| && np != p && s.waitLock == None
    && s' == s.(procs := s.procs[p := s.procs[p].(pc := ForkParent(np))][np := s.procs[np].(parent := Some(p))])
  }

  predicate DoForkRun(s: State, s': State, p: nat, np: nat) {
    Running(s, p, ForkParent(np)) && Unlocked(s, np) && np != p
    && s' == s.(procs := s.procs[p := s.procs[p].(pc := Elsewhere)][np := s.procs[np].(status := RUNNABLE)])
  }

  // ----- what every state satisfies -----

  predicate Holding(pc: Pc) {
    pc.ExitReparent? || pc.ExitWakeInit? || pc.ExitWake? || pc.ExitLock? || pc.ExitMark? || pc.ExitRelease?
    || pc.WaitScan? || pc.WaitLock? || pc.WaitRelease?
  }

  predicate OwnLock(pc: Pc) {
    pc.ExitMark? || pc.ExitRelease? || pc.ExitSched? || pc.WaitRelease? || pc.WaitMark? || pc.WaitSched? || pc.WaitTidy?
  }

  predicate Exiting(pc: Pc) {
    pc.ExitReparent? || pc.ExitWakeInit? || pc.ExitWake? || pc.ExitLock? || pc.ExitMark?
  }

  predicate Leaving(pc: Pc) { pc.ExitRelease? || pc.ExitSched? || pc.Gone? }

  predicate Waiting(pc: Pc) { pc.WaitSched? || pc.WaitAsleep? }

  predicate Forking(pc: Pc) { pc.ForkAlloc? || pc.ForkParent? }

  predicate Alive(pr: Proc) { pr.status != UNUSED && pr.status != USED && pr.status != ZOMBIE }

  /** Which states go with which place; holds says whether the process has wait_lock. */
  predicate Local(pr: Proc, i: nat, holds: bool) {
    && (Holding(pr.pc) <==> holds) && (pr.locked <==> OwnLock(pr.pc)) && (Leaving(pr.pc) <==> pr.status == ZOMBIE)
    && (pr.status == UNUSED || pr.status == USED ==> pr.pc == Elsewhere)
    && (pr.status == UNUSED ==> pr.parent == None)
    && (pr.status == SLEEPING ==> pr.pc == Elsewhere || Waiting(pr.pc))
    && (pr.status == RUNNABLE ==> pr.pc == Elsewhere || pr.pc == WaitAsleep || pr.pc == WaitAcquire || Forking(pr.pc))
    && (if Waiting(pr.pc) || pr.pc == WaitTidy then pr.chan == Some(i) else pr.chan == None)
    && (pr.pc == WaitSched ==> pr.status == SLEEPING)
    && (pr.pc == WaitAsleep ==> pr.status != RUNNING)
    && (i == INIT ==> !Exiting(pr.pc) && Alive(pr) && pr.parent == None)
  }

  /** The process has decided to sleep in wait and has not been woken since. */
  predicate Committed(pr: Proc) {
    pr.pc == WaitRelease || pr.pc == WaitMark || pr.pc == WaitSched || (pr.pc == WaitAsleep && pr.status == SLEEPING)
  }

  /** Whoever is at pc may have a child with the given status at slot c. A process that exits hands over its children
      in the order of the table; a process that waits has found no zombie in the part of the table behind it. */
  predicate KidOk(pc: Pc, c: nat, status: Status) {
    match pc
    case ExitReparent(k) => k <= c
    case ExitWakeInit(k, _) => k < c
    case ExitWake(_) => false
    case ExitLock => false
    case ExitMark => false
    case WaitScan(k, kids) => c < k ==> kids && status != ZOMBIE
    case WaitLock => status != ZOMBIE
    case WaitRelease => status != ZOMBIE
    case _ => true
  }

  /** A process that exits has already woken its parent q. */
  predicate HasWoken(pr: Proc, q: nat) {
    (pr.pc.ExitWake? && q < pr.pc.j) || pr.pc == ExitLock || pr.pc == ExitMark
  }

  /** A process c and its parent q: the parent is alive; a parent about to sleep or asleep in wait has no zombie
      child, but for one that is being handed to the first process right now; a parent that has been woken by the
      exit of c does not sleep. */
  predicate Pair(prq: Proc, prc: Proc, q: nat, c: nat, soon: bool) {
    && Alive(prq) && KidOk(prq.pc, c, prc.status)
    && (prc.status == ZOMBIE && Committed(prq) ==> q == INIT && soon)
    && (HasWoken(prc, q) ==> !Committed(prq))
  }

  /** Someone holds wait_lock who has yet to wake the first process. */
  predicate WillWakeInit(s: State) {
    s.waitLock.Some? && s.waitLock.value < |s.procs|
    && var pc := s.procs[s.waitLock.value].pc; pc.ExitWakeInit? && pc.j <= INIT
  }

  predicate ChildOk(s: State, c: nat)
    requires c < |s.procs|
  {
    s.procs[c].parent.Some? ==>
      var q := s.procs[c].parent.value;
      q < |s.procs| && q != c && Pair(s.procs[q], s.procs[c], q, c, WillWakeInit(s))
  }

  predicate LocalOk(s: State, i: nat)
    requires i < |s.procs|
  {
    Local(s.procs[i], i, s.waitLock == Some(i))
  }

  /** The slot that a process is filling in fork. */
  predicate ForkOk(s: State, i: nat)
    requires i < |s.procs|
  {
    var pc := s.procs[i].pc;
    Forking(pc) ==> pc.np < |s.procs| && s.procs[pc.np].status == USED
                    && s.procs[pc.np].parent == (if pc.ForkAlloc? then None else Some(i))
  }

  predicate ForkApart(s: State, i: nat, j: nat)
    requires i < |s.procs| && j < |s.procs|
  {
    i != j && Forking(s.procs[i].pc) && Forking(s.procs[j].pc) ==> s.procs[i].pc.np != s.procs[j].pc.np
  }

  /** The records of exit and wait. */
  predicate PidOk(s: State, c: nat)
    requires c < |s.procs|
  {
    var pr := s.procs[c];
    && (pr.status != UNUSED ==> pr.pid < s.nextpid)
    && (pr.status == ZOMBIE ==> pr.pid in s.exited && s.exited[pr.pid] == pr.xstate && pr.pid !in s.reaped)
    && (pr.status != UNUSED && pr.status != ZOMBIE ==> pr.pid !in s.exited)
  }

  predicate PidApart(s: State, c: nat, d: nat)
    requires c < |s.procs| && d < |s.procs|
  {
    c != d && s.procs[c].status != UNUSED && s.procs[d].status != UNUSED ==> s.procs[c].pid != s.procs[d].pid
  }

  predicate Records(s: State) {
    && (forall p :: p in s.exited ==> p < s.nextpid)
    && (forall p :: p in s.reaped ==> p in s.exited && s.reaped[p] == s.exited[p])
  }

  ghost predicate Inv(s: State) {
    && INIT < |s.procs| && Records(s) && (s.waitLock.Some? ==> s.waitLock.value < |s.procs|)
    && (forall i: nat :: i < |s.procs| ==> LocalOk(s, i))
    && (forall c: nat :: c < |s.procs| ==> ChildOk(s, c))
    && (forall i: nat :: i < |s.procs| ==> ForkOk(s, i))
    && (forall c: nat :: c < |s.procs| ==> PidOk(s, c))
    && (forall i: nat, j: nat :: i < |s.procs| && j < |s.procs| ==> ForkApart(s, i, j))
    && (forall c: nat, d: nat :: c < |s.procs| && d < |s.procs| ==> PidApart(s, c, d))
  }

  // ----- every step keeps it -----

  lemma Slot(s: State, i: nat)
    requires Inv(s) && i < |s.procs|
    ensures LocalOk(s, i) && ChildOk(s, i) && ForkOk(s, i) && PidOk(s, i) && INIT < |s.procs|
  {
  }

  lemma Slots(s: State, i: nat, j: nat)
    requires Inv(s) && i < |s.procs| && j < |s.procs|
    ensures ForkApart(s, i, j) && PidApart(s, i, j)
  {
  }

  /** How wait_lock may change hands. */
  predicate LockStep(s: State, p: nat, lock: Option<nat>) {
    lock == s.waitLock || (s.waitLock == None && lock == Some(p)) || (s.waitLock == Some(p) && lock == None)
  }

  /** A step of p alone that keeps what others can see of p. */
  predicate Quiet(pr: Proc, pr': Proc) {
    && pr'.parent == pr.parent && pr'.pid == pr.pid && pr'.xstate == pr.xstate
    && (pr'.status == pr.status || (Alive(pr) && Alive(pr'))) && (Forking(pr'.pc) ==> pr'.pc == pr.pc)
  }

  lemma SoloLocal(s: State, s': State, p: nat, pr: Proc, lock: Option<nat>, i: nat)
    requires i < |s.procs| && LocalOk(s, i) && Solo(s, s', p, pr, lock) && LockStep(s, p, lock) && Local(pr, p, lock == Some(p))
    ensures LocalOk(s', i)
  {
  }

  lemma SoloChild(s: State, s': State, p: nat, pr: Proc, lock: Option<nat>, c: nat)
    requires c < |s.procs| && ChildOk(s, c) && INIT < |s.procs| && Solo(s, s', p, pr, lock) && Quiet(s.procs[p], pr)
    requires s.procs[c].parent == Some(p) ==> Pair(pr, s.procs[c], p, c, WillWakeInit(s'))
    requires var o := s.procs[p].parent;
             o.Some? && o.value < |s.procs| && HasWoken(pr, o.value) ==> HasWoken(s.procs[p], o.value) || !Committed(s.procs[o.value])
    requires WillWakeInit(s) ==> WillWakeInit(s') || !Committed(s'.procs[INIT])
    ensures ChildOk(s', c)
  {
  }

  lemma SoloRest(s: State, s': State, p: nat, pr: Proc, lock: Option<nat>)
    requires Inv(s) && Solo(s, s', p, pr, lock) && Quiet(s.procs[p], pr)
    ensures Records(s')
    ensures forall i: nat :: i < |s'.procs| ==> ForkOk(s', i) && PidOk(s', i)
    ensures forall i: nat, j: nat :: i < |s'.procs| && j < |s'.procs| ==> ForkApart(s', i, j) && PidApart(s', i, j)
  {
    hide LocalOk, ChildOk;
    forall i: nat | i < |s'.procs| ensures ForkOk(s', i) && PidOk(s', i) {
      assert ForkOk(s, i) && PidOk(s, i);
    }
    forall i: nat, j: nat | i < |s'.procs| && j < |s'.procs| ensures ForkApart(s', i, j) && PidApart(s', i, j) {
      assert ForkApart(s, i, j) && PidApart(s, i, j);
    }
  }

  lemma SoloInv(s: State, s': State, p: nat, pr: Proc, lock: Option<nat>)
    requires Inv(s) && Solo(s, s', p, pr, lock) && LockStep(s, p, lock) && Local(pr, p, lock == Some(p)) && Quiet(s.procs[p], pr)
    requires forall c: nat :: c < |s.procs| && s.procs[c].parent == Some(p) ==> Pair(pr, s.procs[c], p, c, WillWakeInit(s'))
    requires var o := s.procs[p].parent;
             o.Some? && o.value < |s.procs| && HasWoken(pr, o.value) ==> HasWoken(s.procs[p], o.value) || !Committed(s.procs[o.value])
    requires WillWakeInit(s) ==> WillWakeInit(s') || !Committed(s'.procs[INIT])
    ensures Inv(s')
  {
    hide ChildOk, LocalOk, ForkOk, PidOk, ForkApart, PidApart, Records, Local, Pair, Quiet, WillWakeInit, HasWoken, Committed;
    SoloRest(s, s', p, pr, lock);
    forall i: nat | i < |s'.procs| ensures LocalOk(s', i) {
      SoloLocal(s, s', p, pr, lock, i);
    }
    forall c: nat | c < |s'.procs| ensures ChildOk(s', c) {
      SoloChild(s, s', p, pr, lock, c);
    }
  }

  /** A step of p alone that has nothing to do with waking the first process. */
  lemma PlainInv(s: State, s': State, p: nat, pr: Proc, lock: Option<nat>)
    requires Inv(s) && Solo(s, s', p, pr, lock) && LockStep(s, p, lock) && Local(pr, p, lock == Some(p)) && Quiet(s.procs[p], pr)
    requires !s.procs[p].pc.ExitWakeInit? && !pr.pc.ExitWakeInit?
    requires forall c: nat :: c < |s.procs| && s.procs[c].parent == Some(p) ==> Pair(pr, s.procs[c], p, c, WillWakeInit(s))
    requires var o := s.procs[p].parent;
             o.Some? && o.value < |s.procs| && HasWoken(pr, o.value) ==> HasWoken(s.procs[p], o.value) || !Committed(s.procs[o.value])
    ensures Inv(s')
  {
    assert WillWakeInit(s) == WillWakeInit(s');
    hide Inv, Local, Pair, Quiet, WillWakeInit, HasWoken, Committed;
    SoloInv(s, s', p, pr, lock);
  }

  lemma KeepsExit(s: State, s': State, p: nat)
    requires Inv(s) && DoExit(s, s', p)
    ensures Inv(s')
  {
    hide Inv, Solo;
    Slot(s, p);
    var pr := s.procs[p].(pc := ExitReparent(0));
    Kids(s, p);
    hide WillWakeInit;
    PlainInv(s, s', p, pr, Some(p));
  }

  /** What is known about the children of p. */
  lemma Kids(s: State, p: nat)
    requires Inv(s) && p < |s.procs|
    ensures forall c: nat :: c < |s.procs| && s.procs[c].parent == Some(p) ==> Pair(s.procs[p], s.procs[c], p, c, WillWakeInit(s))
  {
    forall c: nat | c < |s.procs| && s.procs[c].parent == Some(p) ensures Pair(s.procs[p], s.procs[c], p, c, WillWakeInit(s)) {
      assert ChildOk(s, c);
    }
  }

  lemma KeepsExitLock(s: State, s': State, p: nat)
    requires Inv(s) && DoExitLock(s, s', p)
    ensures Inv(s')
  {
    hide Inv, Solo;
    Slot(s, p);
    Kids(s, p);
    hide WillWakeInit;
    PlainInv(s, s', p, s.procs[p].(locked := true, pc := ExitMark), s.waitLock);
  }

  lemma KeepsExitRelease(s: State, s': State, p: nat)
    requires Inv(s) && DoExitRelease(s, s', p)
    ensures Inv(s')
  {
    hide Inv, Solo;
    Slot(s, p);
    Kids(s, p);
    hide WillWakeInit;
    PlainInv(s, s', p, s.procs[p].(pc := ExitSched), None);
  }

  lemma KeepsExitSched(s: State, s': State, p: nat)
    requires Inv(s) && DoExitSched(s, s', p)
    ensures Inv(s')
  {
    hide Inv, Solo;
    Slot(s, p);
    Kids(s, p);
    hide WillWakeInit;
    PlainInv(s, s', p, s.procs[p].(locked := false, pc := Gone), s.waitLock);
  }

  lemma KeepsWait(s: State, s': State, p: nat)
    requires Inv(s) && DoWait(s, s', p)
    ensures Inv(s')
  {
    hide Inv, Solo;
    Slot(s, p);
    Kids(s, p);
    hide WillWakeInit;
    PlainInv(s, s', p, s.procs[p].(pc := WaitScan(0, false)), Some(p));
  }

  /** Only the holder of wait_lock is in the part of exit or wait that needs it. */
  lemma OnlyHolder(s: State, p: nat)
    requires Inv(s) && s.waitLock == Some(p)
    ensures forall c: nat :: c < |s.procs| && c != p ==> !Holding(s.procs[c].pc)
  {
    hide ChildOk, ForkOk, PidOk, ForkApart, PidApart;
    forall c: nat | c < |s.procs| && c != p ensures !Holding(s.procs[c].pc) {
      assert LocalOk(s, c);
    }
  }

  lemma KeepsSleepLock(s: State, s': State, p: nat)
    requires Inv(s) && DoSleepLock(s, s', p)
    ensures Inv(s')
  {
    hide Inv, Solo;
    Slot(s, p);
    Kids(s, p);
    OnlyHolder(s, p);
    hide WillWakeInit;
    var pr := s.procs[p].(locked := true, pc := WaitRelease);
    forall c: nat | c < |s.procs| && s.procs[c].parent == Some(p) ensures Pair(pr, s.procs[c], p, c, WillWakeInit(s)) {
      assert Pair(s.procs[p], s.procs[c], p, c, WillWakeInit(s));
      assert c != p ==> !HasWoken(s.procs[c], p);
    }
    PlainInv(s, s', p, pr, s.waitLock);
  }

  lemma KeepsSleepRelease(s: State, s': State, p: nat)
    requires Inv(s) && DoSleepRelease(s, s', p)
    ensures Inv(s')
  {
    hide Inv, Solo;
    Slot(s, p);
    Kids(s, p);
    hide WillWakeInit;
    PlainInv(s, s', p, s.procs[p].(pc := WaitMark), None);
  }

  lemma KeepsSleepMark(s: State, s': State, p: nat)
    requires Inv(s) && DoSleepMark(s, s', p)
    ensures Inv(s')
  {
    hide Inv, Solo;
    Slot(s, p);
    Kids(s, p);
    hide WillWakeInit;
    PlainInv(s, s', p, s.procs[p].(chan := Some(p), status := SLEEPING, pc := WaitSched), s.waitLock);
  }

  lemma KeepsSleepSched(s: State, s': State, p: nat)
    requires Inv(s) && DoSleepSched(s, s', p)
    ensures Inv(s')
  {
    hide Inv, Solo;
    Slot(s, p);
    Kids(s, p);
    hide WillWakeInit;
    PlainInv(s, s', p, s.procs[p].(locked := false, pc := WaitAsleep), s.waitLock);
  }

  lemma KeepsSchedule(s: State, s': State, p: nat)
    requires Inv(s) && DoSchedule(s, s', p)
    ensures Inv(s')
  {
    hide Inv, Solo;
    Slot(s, p);
    Kids(s, p);
    var pr := s.procs[p].(status := RUNNING);
    hide WillWakeInit;
    PlainInv(s, s', p, if pr.pc == WaitAsleep then pr.(locked := true, pc := WaitTidy) else pr, s.waitLock);
  }

  lemma KeepsTidy(s: State, s': State, p: nat)
    requires Inv(s) && DoTidy(s, s', p)
    ensures Inv(s')
  {
    hide Inv, Solo;
    Slot(s, p);
    Kids(s, p);
    hide WillWakeInit;
    PlainInv(s, s', p, s.procs[p].(chan := None, locked := false, pc := WaitAcquire), s.waitLock);
  }

  lemma KeepsYield(s: State, s': State, p: nat)
    requires Inv(s) && DoYield(s, s', p)
    ensures Inv(s')
  {
    hide Inv, Solo;
    Slot(s, p);
    Kids(s, p);
    hide WillWakeInit;
    PlainInv(s, s', p, s.procs[p].(status := RUNNABLE), s.waitLock);
  }

  lemma KeepsOtherSleep(s: State, s': State, p: nat)
    requires Inv(s) && DoOtherSleep(s, s', p)
    ensures Inv(s')
  {
    hide Inv, Solo;
    Slot(s, p);
    Kids(s, p);
    hide WillWakeInit;
    PlainInv(s, s', p, s.procs[p].(status := SLEEPING), s.waitLock);
  }

  lemma KeepsOtherWake(s: State, s': State, p: nat)
    requires Inv(s) && DoOtherWake(s, s', p)
    ensures Inv(s')
  {
    hide Inv, Solo;
    Slot(s, p);
    Kids(s, p);
    hide WillWakeInit;
    PlainInv(s, s', p, s.procs[p].(status := RUNNABLE), s.waitLock);
  }

  lemma ReparentMoves(s: State, s': State, p: nat, pc: Pc)
    requires Inv(s) && p < |s.procs| && s.procs[p].pc.ExitReparent? && Solo(s, s', p, s.procs[p].(pc := pc), s.waitLock)
    requires var k := s.procs[p].pc.k;
             if k >= |s.procs| then pc == ExitWake(0) else pc == ExitReparent(k + 1) && s.procs[k].parent != Some(p)
    ensures Inv(s')
  {
    hide Inv, WillWakeInit, Solo;
    Slot(s, p);
    Kids(s, p);
    PlainInv(s, s', p, s.procs[p].(pc := pc), s.waitLock);
  }

  lemma KeepsReparent(s: State, s': State, p: nat)
    requires Inv(s) && DoReparent(s, s', p)
    ensures Inv(s')
  {
    hide Inv, Solo;
    var k := s.procs[p].pc.k;
    if k >= |s.procs| {
      ReparentMoves(s, s', p, ExitWake(0));
    } else if s.procs[k].parent != Some(p) {
      ReparentMoves(s, s', p, ExitReparent(k + 1));
    } else {
      HandOver(s, s', p, k);
    }
  }

  lemma HandedLocal(s: State, p: nat, k: nat, i: nat)
    requires p < |s.procs| && k < |s.procs| && i < |s.procs| && k != p && s.procs[p].pc == ExitReparent(k) && s.procs[k].parent == Some(p)
    requires LocalOk(s, i)
    ensures LocalOk(Handed(s, p, k), i)
  {
  }

  lemma HandedChild(s: State, p: nat, k: nat, c: nat)
    requires p < |s.procs| && k < |s.procs| && c < |s.procs| && k != p && s.procs[p].pc == ExitReparent(k) && s.procs[k].parent == Some(p)
    requires ChildOk(s, c) && LocalOk(s, p) && INIT < |s.procs| && LocalOk(s, INIT) && Local(s.procs[k], k, false) && p != INIT
    ensures k != INIT && ChildOk(Handed(s, p, k), c)
  {
    var s' := Handed(s, p, k);
    assert WillWakeInit(s');
    assert !Holding(s.procs[k].pc) && !Holding(s.procs[INIT].pc);
    hide Local, WillWakeInit;
  }

  lemma HandedRest(s: State, p: nat, k: nat, c: nat, d: nat)
    requires p < |s.procs| && k < |s.procs| && c < |s.procs| && d < |s.procs| && k != p
    requires s.procs[p].pc == ExitReparent(k) && s.procs[k].parent == Some(p)
    requires ForkOk(s, c) && PidOk(s, c) && ForkApart(s, c, d) && PidApart(s, c, d)
    ensures ForkOk(Handed(s, p, k), c) && PidOk(Handed(s, p, k), c) && ForkApart(Handed(s, p, k), c, d) && PidApart(Handed(s, p, k), c, d)
  {
  }

  lemma HandOver(s: State, s': State, p: nat, k: nat)
    requires Inv(s) && p < |s.procs| && s.procs[p].pc == ExitReparent(k) && k < |s.procs| && s.procs[k].parent == Some(p) && k != p
    requires s' == Handed(s, p, k)
    ensures Inv(s')
  {
    assert s'.waitLock == s.waitLock && Records(s');
    assert LocalOk(s, p) && LocalOk(s, k) && LocalOk(s, INIT);
    assert p != INIT && Local(s.procs[k], k, false);
    hide LocalOk, ChildOk, ForkOk, PidOk, ForkApart, PidApart, Records, Handed, Local;
    forall c: nat | c < |s.procs| ensures LocalOk(s', c) && ChildOk(s', c) {
      HandedLocal(s, p, k, c);
      HandedChild(s, p, k, c);
    }
    forall c: nat, d: nat | c < |s.procs| && d < |s.procs| ensures ForkOk(s', c) && PidOk(s', c) && ForkApart(s', c, d) && PidApart(s', c, d) {
      HandedRest(s, p, k, c, d);
    }
    forall c: nat | c < |s.procs| ensures ForkOk(s', c) && PidOk(s', c) {
      HandedRest(s, p, k, c, c);
    }
  }

  /** After a round of wakeup for the process that sleeps there, it does not. */
  lemma WokenUp(pr: Proc, j: nat, holds: bool)
    requires Local(pr, j, holds) && !pr.locked
    ensures !Committed(Woken(pr, Some(j)))
  {
  }

  /** A round of wakeup is like any other wakeup. */
  lemma KeepsRound(s: State, s1: State, j: nat, chan: Option<nat>)
    requires Inv(s) && Unlocked(s, j) && s1 == s.(procs := s.procs[j := Woken(s.procs[j], chan)])
    ensures Inv(s1)
  {
    if Woken(s.procs[j], chan) != s.procs[j] {
      assert DoOtherWake(s, s1, j);
      hide Inv;
      KeepsOtherWake(s, s1, j);
    } else {
      assert s1.procs == s.procs;
    }
  }

  lemma InitMoves(s: State, s': State, p: nat, pc: Pc)
    requires Inv(s) && p < |s.procs| && s.procs[p].pc.ExitWakeInit? && Solo(s, s', p, s.procs[p].(pc := pc), s.waitLock)
    requires var k, j := s.procs[p].pc.k, s.procs[p].pc.j;
             pc == (if j >= |s.procs| then ExitReparent(k + 1) else ExitWakeInit(k, j + 1))
    requires s.procs[p].pc.j == INIT ==> INIT < |s.procs| && INIT != p && !Committed(s.procs[INIT])
    ensures Inv(s')
  {
    hide Inv;
    Slot(s, p);
    Kids(s, p);
    var pr := s.procs[p].(pc := pc);
    forall c: nat | c < |s.procs| && s.procs[c].parent == Some(p) ensures Pair(pr, s.procs[c], p, c, WillWakeInit(s')) {
      hide WillWakeInit, Local;
      assert Pair(s.procs[p], s.procs[c], p, c, WillWakeInit(s));
    }
    assert WillWakeInit(s) ==> !Committed(s'.procs[INIT]);
    hide WillWakeInit, Solo, Pair;
    SoloInv(s, s', p, pr, s.waitLock);
  }

  lemma KeepsWakeInit(s: State, s': State, p: nat)
    requires Inv(s) && DoWakeInit(s, s', p)
    ensures Inv(s')
  {
    hide Inv;
    Slot(s, p);
    var k, j := s.procs[p].pc.k, s.procs[p].pc.j;
    if j >= |s.procs| {
      hide Local;
      InitMoves(s, s', p, ExitReparent(k + 1));
    } else if j == p {
      assert j != INIT;
      hide Local;
      InitMoves(s, s', p, ExitWakeInit(k, j + 1));
    } else {
      var s1 := s.(procs := s.procs[j := Woken(s.procs[j], Some(INIT))]);
      Slot(s, j);
      hide Local;
      KeepsRound(s, s1, j, Some(INIT));
      if j == INIT {
        WokenUp(s.procs[j], j, s.waitLock == Some(j));
      }
      assert s'.procs == s1.procs[p := s.procs[p].(pc := ExitWakeInit(k, j + 1))];
      InitMoves(s1, s', p, ExitWakeInit(k, j + 1));
    }
  }

  lemma WakeMoves(s: State, s': State, p: nat, pc: Pc)
    requires Inv(s) && p < |s.procs| && s.procs[p].pc.ExitWake? && Solo(s, s', p, s.procs[p].(pc := pc), s.waitLock)
    requires var j := s.procs[p].pc.j; pc == (if j >= |s.procs| then ExitLock else ExitWake(j + 1))
    requires var j := s.procs[p].pc.j; s.procs[p].parent == Some(j) && j < |s.procs| ==> !Committed(s.procs[j])
    ensures Inv(s')
  {
    hide Inv, WillWakeInit, Solo;
    Slot(s, p);
    Kids(s, p);
    PlainInv(s, s', p, s.procs[p].(pc := pc), s.waitLock);
  }

  lemma KeepsWake(s: State, s': State, p: nat)
    requires Inv(s) && DoWake(s, s', p)
    ensures Inv(s')
  {
    hide Inv, WillWakeInit, Local;
    Slot(s, p);
    var j := s.procs[p].pc.j;
    if j >= |s.procs| {
      WakeMoves(s, s', p, ExitLock);
    } else if j == p {
      WakeMoves(s, s', p, ExitWake(j + 1));
    } else {
      var s1 := s.(procs := s.procs[j := Woken(s.procs[j], s.procs[p].parent)]);
      KeepsRound(s, s1, j, s.procs[p].parent);
      Slot(s, j);
      if s.procs[p].parent == Some(j) {
        WokenUp(s.procs[j], j, s.waitLock == Some(j));
      }
      assert s'.procs == s1.procs[p := s.procs[p].(pc := ExitWake(j + 1))];
      WakeMoves(s1, s', p, ExitWake(j + 1));
    }
  }

  // a process becomes a zombie

  lemma MarkChild(s: State, s': State, p: nat, xstate: int, c: nat)
    requires DoExitMark(s, s', p, xstate) && c < |s.procs| && ChildOk(s, c) && LocalOk(s, p)
    requires forall d: nat :: d < |s.procs| && d != p ==> !Holding(s.procs[d].pc)
    ensures ChildOk(s', c)
  {
    assert !WillWakeInit(s) && !WillWakeInit(s');
    hide Local, WillWakeInit;
  }

  lemma MarkRest(s: State, s': State, p: nat, xstate: int, c: nat, d: nat)
    requires DoExitMark(s, s', p, xstate) && c < |s.procs| && d < |s.procs|
    requires Records(s) && LocalOk(s, c) && LocalOk(s, p) && ForkOk(s, c) && ForkApart(s, c, d)
    requires PidOk(s, c) && PidOk(s, p) && PidApart(s, c, d) && PidApart(s, p, c)
    ensures LocalOk(s', c) && ForkOk(s', c) && PidOk(s', c) && ForkApart(s', c, d) && PidApart(s', c, d)
  {
  }

  lemma MarkRecords(s: State, s': State, p: nat, xstate: int)
    requires DoExitMark(s, s', p, xstate) && Records(s) && PidOk(s, p) && LocalOk(s, p)
    ensures Records(s')
  {
  }

  lemma KeepsExitMark(s: State, s': State, p: nat, xstate: int)
    requires Inv(s) && DoExitMark(s, s', p, xstate)
    ensures Inv(s')
  {
    Slot(s, p);
    OnlyHolder(s, p);
    MarkRecords(s, s', p, xstate);
    assert |s'.procs| == |s.procs| && s'.waitLock == s.waitLock;
    hide LocalOk, ChildOk, ForkOk, PidOk, ForkApart, PidApart, Records, DoExitMark, Holding;
    forall c: nat | c < |s.procs| ensures ChildOk(s', c) {
      MarkChild(s, s', p, xstate, c);
    }
    forall c: nat, d: nat | c < |s.procs| && d < |s.procs| ensures LocalOk(s', c) && ForkOk(s', c) && PidOk(s', c) && ForkApart(s', c, d) && PidApart(s', c, d) {
      MarkRest(s, s', p, xstate, c, d);
    }
    forall c: nat | c < |s.procs| ensures LocalOk(s', c) && ForkOk(s', c) && PidOk(s', c) {
      MarkRest(s, s', p, xstate, c, c);
    }
  }

  // a slot is freed

  /** Slot k, in use but belonging to nobody, becomes free; its status may have been delivered. */
  predicate FreesSlot(s: State, s': State, k: nat, reap: bool) {
    k < |s.procs| && s' == s.(procs := s.procs[k := FREE], reaped := if reap then s.reaped[s.procs[k].pid := s.procs[k].xstate] else s.reaped)
  }

  lemma FreedSlot(s: State, s': State, k: nat, reap: bool, c: nat, d: nat)
    requires FreesSlot(s, s', k, reap) && c < |s.procs| && d < |s.procs| && k != INIT
    requires !Alive(s.procs[k]) && s.waitLock != Some(k) && (Forking(s.procs[c].pc) ==> s.procs[c].pc.np != k)
    requires LocalOk(s, c) && ChildOk(s, c) && ForkOk(s, c) && ForkApart(s, c, d) && PidOk(s, c) && PidApart(s, c, d) && PidApart(s, k, c)
    requires reap ==> s.procs[k].status == ZOMBIE
    ensures LocalOk(s', c) && ChildOk(s', c) && ForkOk(s', c) && ForkApart(s', c, d) && PidOk(s', c) && PidApart(s', c, d)
  {
    assert WillWakeInit(s') == WillWakeInit(s);
    hide KidOk, Committed, HasWoken, WillWakeInit;
  }

  lemma KeepsFreesSlot(s: State, s': State, k: nat, reap: bool)
    requires Inv(s) && FreesSlot(s, s', k, reap) && k != INIT && !Alive(s.procs[k]) && s.waitLock != Some(k)
    requires forall c: nat :: c < |s.procs| && Forking(s.procs[c].pc) ==> s.procs[c].pc.np != k
    requires reap ==> s.procs[k].status == ZOMBIE
    ensures Inv(s')
  {
    Slot(s, k);
    assert Records(s');
    assert |s'.procs| == |s.procs| && s'.waitLock == s.waitLock;
    hide LocalOk, ChildOk, ForkOk, PidOk, ForkApart, PidApart, Records, FreesSlot;
    forall c: nat, d: nat | c < |s.procs| && d < |s.procs|
      ensures LocalOk(s', c) && ChildOk(s', c) && ForkOk(s', c) && PidOk(s', c) && ForkApart(s', c, d) && PidApart(s', c, d)
    {
      FreedSlot(s, s', k, reap, c, d);
    }
    forall c: nat | c < |s.procs| ensures LocalOk(s', c) && ChildOk(s', c) && ForkOk(s', c) && PidOk(s', c) {
      FreedSlot(s, s', k, reap, c, c);
    }
  }

  lemma ScanMoves(s: State, s': State, p: nat, pc: Pc, lock: Option<nat>)
    requires Inv(s) && p < |s.procs| && s.procs[p].pc.WaitScan? && Solo(s, s', p, s.procs[p].(pc := pc), lock)
    requires var k, kids := s.procs[p].pc.k, s.procs[p].pc.kids;
             if pc == Elsewhere then lock == None
             else lock == s.waitLock && if pc == WaitLock then k >= |s.procs|
             else k < |s.procs| && pc == WaitScan(k + 1, kids || s.procs[k].parent == Some(p)) && (s.procs[k].parent == Some(p) ==> s.procs[k].status != ZOMBIE)
    ensures Inv(s')
  {
    hide Inv, WillWakeInit, Solo, Local, Pair;
    Slot(s, p);
    Kids(s, p);
    var pr := s.procs[p].(pc := pc);
    ScanLocal(s.procs[p], p, s.waitLock == Some(p), pc, lock == Some(p));
    forall c: nat | c < |s.procs| && s.procs[c].parent == Some(p) ensures Pair(pr, s.procs[c], p, c, WillWakeInit(s)) {
      ScanPair(s.procs[p], s.procs[c], p, c, WillWakeInit(s), pc, c == s.procs[p].pc.k, |s.procs|);
    }
    PlainInv(s, s', p, pr, lock);
  }

  lemma ScanLocal(pr: Proc, p: nat, holds: bool, pc: Pc, holds': bool)
    requires Local(pr, p, holds) && pr.pc.WaitScan? && if pc == Elsewhere then !holds' else holds' == holds && (pc == WaitLock || pc.WaitScan?)
    ensures Local(pr.(pc := pc), p, holds') && holds
  {
  }

  lemma ScanPair(prq: Proc, prc: Proc, q: nat, c: nat, soon: bool, pc: Pc, here: bool, n: nat)
    requires Pair(prq, prc, q, c, soon) && prq.pc.WaitScan? && c < n && (here <==> c == prq.pc.k)
    requires pc == Elsewhere || (pc == WaitLock && prq.pc.k >= n)
             || (pc.WaitScan? && pc.k == prq.pc.k + 1 && (prq.pc.kids || here ==> pc.kids) && (here ==> prc.status != ZOMBIE))
    ensures Pair(prq.(pc := pc), prc, q, c, soon)
  {
  }

  lemma KeepsScan(s: State, s': State, p: nat, copied: bool, killed: bool)
    requires Inv(s) && DoScan(s, s', p, copied, killed)
    ensures Inv(s')
  {
    hide Inv, Solo;
    var k, kids := s.procs[p].pc.k, s.procs[p].pc.kids;
    if k >= |s.procs| {
      if !kids || killed {
        ScanMoves(s, s', p, Elsewhere, None);
      } else {
        ScanMoves(s, s', p, WaitLock, s.waitLock);
      }
    } else if s.procs[k].parent != Some(p) {
      ScanMoves(s, s', p, WaitScan(k + 1, kids), s.waitLock);
    } else if s.procs[k].status != ZOMBIE {
      ScanMoves(s, s', p, WaitScan(k + 1, true), s.waitLock);
    } else if !copied {
      ScanMoves(s, s', p, Elsewhere, None);
    } else {
      KeepsReap(s, s', p, k);
    }
  }

  lemma NoTarget(s: State, k: nat)
    requires Inv(s) && k < |s.procs| && s.procs[k].status != USED
    ensures forall c: nat :: c < |s.procs| && Forking(s.procs[c].pc) ==> s.procs[c].pc.np != k
  {
    forall c: nat | c < |s.procs| && Forking(s.procs[c].pc) ensures s.procs[c].pc.np != k {
      assert ForkOk(s, c);
    }
  }

  lemma KeepsReap(s: State, s': State, p: nat, k: nat)
    requires Inv(s) && p < |s.procs| && s.procs[p].pc.WaitScan? && k < |s.procs| && k != p && s.procs[k].status == ZOMBIE
    requires s' == s.(procs := s.procs[p := s.procs[p].(pc := Elsewhere)][k := FREE], waitLock := None,
                      reaped := s.reaped[s.procs[k].pid := s.procs[k].xstate])
    ensures Inv(s')
  {
    hide Inv, WillWakeInit;
    Slot(s, p);
    Slot(s, k);
    NoTarget(s, k);
    var s1 := s.(procs := s.procs[k := FREE], reaped := s.reaped[s.procs[k].pid := s.procs[k].xstate]);
    KeepsFreesSlot(s, s1, k, true);
    Slot(s1, p);
    Kids(s1, p);
    var pr := s.procs[p].(pc := Elsewhere);
    assert s'.procs == s1.procs[p := pr];
    PlainInv(s1, s', p, pr, None);
  }

  // fork

  lemma LeavesFork(s: State, s1: State, p: nat, np: nat)
    requires Inv(s) && p < |s.procs| && Forking(s.procs[p].pc) && s.procs[p].pc.np == np && np != p
    requires s1 == s.(procs := s.procs[p := s.procs[p].(pc := Elsewhere)])
    ensures Inv(s1) && np < |s.procs| && s1.procs[np].status == USED && s1.procs[np].parent == (if s.procs[p].pc.ForkAlloc? then None else Some(p))
    ensures forall c: nat :: c < |s.procs| && Forking(s1.procs[c].pc) ==> s1.procs[c].pc.np != np
  {
    hide Inv, WillWakeInit;
    Slot(s, p);
    Kids(s, p);
    PlainInv(s, s1, p, s.procs[p].(pc := Elsewhere), s.waitLock);
    forall c: nat | c < |s.procs| && Forking(s1.procs[c].pc) ensures s1.procs[c].pc.np != np {
      Slots(s, c, p);
    }
  }

  lemma KeepsForkFail(s: State, s': State, p: nat, np: nat)
    requires Inv(s) && DoForkFail(s, s', p, np)
    ensures Inv(s')
  {
    hide Inv;
    var s1 := s.(procs := s.procs[p := s.procs[p].(pc := Elsewhere)]);
    LeavesFork(s, s1, p, np);
    Slot(s1, np);
    KeepsFreesSlot(s1, s', np, false);
  }

  lemma StartedSlot(s: State, s': State, k: nat, c: nat, d: nat)
    requires k < |s.procs| && s' == s.(procs := s.procs[k := s.procs[k].(status := RUNNABLE)]) && s.procs[k].status == USED
    requires c < |s.procs| && d < |s.procs| && (Forking(s.procs[c].pc) ==> s.procs[c].pc.np != k)
    requires LocalOk(s, c) && ChildOk(s, c) && ForkOk(s, c) && ForkApart(s, c, d) && PidOk(s, c) && PidApart(s, c, d)
    requires c == k || LocalOk(s, k)
    ensures LocalOk(s', c) && ChildOk(s', c) && ForkOk(s', c) && ForkApart(s', c, d) && PidOk(s', c) && PidApart(s', c, d)
  {
    assert WillWakeInit(s') == WillWakeInit(s);
    hide WillWakeInit;
  }

  lemma KeepsForkRun(s: State, s': State, p: nat, np: nat)
    requires Inv(s) && DoForkRun(s, s', p, np)
    ensures Inv(s')
  {
    var s1 := s.(procs := s.procs[p := s.procs[p].(pc := Elsewhere)]);
    LeavesFork(s, s1, p, np);
    assert s' == s1.(procs := s1.procs[np := s1.procs[np].(status := RUNNABLE)]);
    assert Records(s');
    hide LocalOk, ChildOk, ForkOk, PidOk, ForkApart, PidApart, Records, DoForkRun;
    forall c: nat, d: nat | c < |s.procs| && d < |s.procs|
      ensures LocalOk(s', c) && ChildOk(s', c) && ForkOk(s', c) && PidOk(s', c) && ForkApart(s', c, d) && PidApart(s', c, d)
    {
      StartedSlot(s1, s', np, c, d);
    }
    forall c: nat | c < |s.procs| ensures LocalOk(s', c) && ChildOk(s', c) && ForkOk(s', c) && PidOk(s', c) {
      StartedSlot(s1, s', np, c, c);
    }
  }

  lemma ForkedLocal(s: State, s': State, p: nat, np: nat, c: nat)
    requires DoFork(s, s', p, np) && c < |s.procs| && LocalOk(s, c) && LocalOk(s, np) && np != INIT
    ensures LocalOk(s', c)
  {
  }

  lemma ForkedChild(s: State, s': State, p: nat, np: nat, c: nat)
    requires DoFork(s, s', p, np) && c < |s.procs| && ChildOk(s, c) && LocalOk(s, np) && LocalOk(s, p)
    ensures ChildOk(s', c)
  {
    assert WillWakeInit(s') == WillWakeInit(s);
    hide WillWakeInit;
  }

  lemma ForkedRest(s: State, s': State, p: nat, np: nat, c: nat, d: nat)
    requires DoFork(s, s', p, np) && c < |s.procs| && d < |s.procs| && Records(s)
    requires ForkOk(s, c) && ForkOk(s, d) && ForkApart(s, c, d) && PidOk(s, c) && PidOk(s, d) && PidApart(s, c, d)
    ensures ForkOk(s', c) && ForkApart(s', c, d) && PidOk(s', c) && PidApart(s', c, d)
  {
  }

  lemma KeepsFork(s: State, s': State, p: nat, np: nat)
    requires Inv(s) && DoFork(s, s', p, np)
    ensures Inv(s')
  {
    Slot(s, p);
    Slot(s, np);
    Slot(s, INIT);
    assert np != INIT && Records(s');
    assert |s'.procs| == |s.procs| && s'.waitLock == s.waitLock;
    hide LocalOk, ChildOk, ForkOk, PidOk, ForkApart, PidApart, Records, DoFork;
    forall c: nat | c < |s.procs| ensures LocalOk(s', c) && ChildOk(s', c) && ForkOk(s', c) && PidOk(s', c) {
      ForkedLocal(s, s', p, np, c);
      ForkedChild(s, s', p, np, c);
      ForkedRest(s, s', p, np, c, c);
    }
    forall c: nat, d: nat | c < |s.procs| && d < |s.procs| ensures ForkApart(s', c, d) && PidApart(s', c, d) {
      ForkedRest(s, s', p, np, c, d);
    }
  }

  lemma ParentedSlot(s: State, s': State, p: nat, np: nat, c: nat, d: nat)
    requires DoForkParent(s, s', p, np) && c < |s.procs| && d < |s.procs| && s.procs[np].status == USED && np != INIT
    requires LocalOk(s, c) && LocalOk(s, np) && LocalOk(s, p) && ChildOk(s, c) && ForkOk(s, c) && ForkApart(s, c, d) && ForkApart(s, c, p)
    requires PidOk(s, c) && PidApart(s, c, d)
    ensures LocalOk(s', c) && ChildOk(s', c) && ForkOk(s', c) && ForkApart(s', c, d) && PidOk(s', c) && PidApart(s', c, d)
  {
    assert !WillWakeInit(s) && !WillWakeInit(s');
    hide WillWakeInit;
  }

  lemma KeepsForkParent(s: State, s': State, p: nat, np: nat)
    requires Inv(s) && DoForkParent(s, s', p, np)
    ensures Inv(s')
  {
    Slot(s, p);
    Slot(s, np);
    Slot(s, INIT);
    assert np != INIT && Records(s') && s.procs[np].status == USED;
    assert |s'.procs| == |s.procs| && s'.waitLock == s.waitLock;
    hide LocalOk, ChildOk, ForkOk, PidOk, ForkApart, PidApart, Records, DoForkParent;
    forall c: nat, d: nat | c < |s.procs| && d < |s.procs|
      ensures LocalOk(s', c) && ChildOk(s', c) && ForkOk(s', c) && PidOk(s', c) && ForkApart(s', c, d) && PidApart(s', c, d)
    {
      ParentedSlot(s, s', p, np, c, d);
    }
    forall c: nat | c < |s.procs| ensures LocalOk(s', c) && ChildOk(s', c) && ForkOk(s', c) && PidOk(s', c) {
      ParentedSlot(s, s', p, np, c, c);
    }
  }

  // ----- runs -----

  /** One step of process p. */
  ghost predicate Moves(s: State, s': State, p: nat) {
    || DoExit(s, s', p) || DoReparent(s, s', p) || DoWakeInit(s, s', p) || DoWake(s, s', p) || DoExitLock(s, s', p)
    || (exists x :: DoExitMark(s, s', p, x)) || DoExitRelease(s, s', p) || DoExitSched(s, s', p)
    || DoWait(s, s', p) || (exists copied, killed :: DoScan(s, s', p, copied, killed))
    || DoSleepLock(s, s', p) || DoSleepRelease(s, s', p) || DoSleepMark(s, s', p) || DoSleepSched(s, s', p)
    || DoSchedule(s, s', p) || DoTidy(s, s', p) || DoYield(s, s', p) || DoOtherSleep(s, s', p) || DoOtherWake(s, s', p)
    || (exists np: nat :: DoFork(s, s', p, np) || DoForkFail(s, s', p, np) || DoForkParent(s, s', p, np) || DoForkRun(s, s', p, np))
  }

  ghost predicate Step(s: State, s': State) {
    exists p: nat :: Moves(s, s', p)
  }

  lemma StepKeeps(s: State, s': State, p: nat)
    requires Inv(s) && Moves(s, s', p)
    ensures Inv(s')
  {
    hide Inv, DoExit, DoReparent, DoWakeInit, DoWake, DoExitLock, DoExitMark, DoExitRelease, DoExitSched, DoWait, DoScan,
         DoSleepLock, DoSleepRelease, DoSleepMark, DoSleepSched, DoSchedule, DoTidy, DoYield, DoOtherSleep, DoOtherWake,
         DoFork, DoForkFail, DoForkParent, DoForkRun;
    if DoExit(s, s', p) { KeepsExit(s, s', p); }
    else if DoReparent(s, s', p) { KeepsReparent(s, s', p); }
    else if DoWakeInit(s, s', p) { KeepsWakeInit(s, s', p); }
    else if DoWake(s, s', p) { KeepsWake(s, s', p); }
    else if DoExitLock(s, s', p) { KeepsExitLock(s, s', p); }
    else if exists x :: DoExitMark(s, s', p, x) {
      var x :| DoExitMark(s, s', p, x);
      KeepsExitMark(s, s', p, x);
    }
    else if DoExitRelease(s, s', p) { KeepsExitRelease(s, s', p); }
    else if DoExitSched(s, s', p) { KeepsExitSched(s, s', p); }
    else if DoWait(s, s', p) { KeepsWait(s, s', p); }
    else if exists copied, killed :: DoScan(s, s', p, copied, killed) {
      var copied, killed :| DoScan(s, s', p, copied, killed);
      KeepsScan(s, s', p, copied, killed);
    }
    else if DoSleepLock(s, s', p) { KeepsSleepLock(s, s', p); }
    else if DoSleepRelease(s, s', p) { KeepsSleepRelease(s, s', p); }
    else if DoSleepMark(s, s', p) { KeepsSleepMark(s, s', p); }
    else if DoSleepSched(s, s', p) { KeepsSleepSched(s, s', p); }
    else if DoSchedule(s, s', p) { KeepsSchedule(s, s', p); }
    else if DoTidy(s, s', p) { KeepsTidy(s, s', p); }
    else if DoYield(s, s', p) { KeepsYield(s, s', p); }
    else if DoOtherSleep(s, s', p) { KeepsOtherSleep(s, s', p); }
    else if DoOtherWake(s, s', p) { KeepsOtherWake(s, s', p); }
    else {
      var np: nat :| DoFork(s, s', p, np) || DoForkFail(s, s', p, np) || DoForkParent(s, s', p, np) || DoForkRun(s, s', p, np);
      if DoFork(s, s', p, np) { KeepsFork(s, s', p, np); }
      else if DoForkFail(s, s', p, np) { KeepsForkFail(s, s', p, np); }
      else if DoForkParent(s, s', p, np) { KeepsForkParent(s, s', p, np); }
      else { KeepsForkRun(s, s', p, np); }
    }
  }

  /** After userinit: the first process is ready to run, every other slot is free. */
  ghost predicate Booted(s: State) {
    && INIT < |s.procs| && s.waitLock == None && s.exited == map[] && s.reaped == map[]
    && s.procs[INIT] == FREE.(status := RUNNABLE, pid := s.procs[INIT].pid) && s.procs[INIT].pid < s.nextpid
    && forall i: nat :: i < |s.procs| && i != INIT ==> s.procs[i] == FREE
  }

  lemma BootedInv(s: State)
    requires Booted(s)
    ensures Inv(s)
  {
    forall i: nat | i < |s.procs| ensures LocalOk(s, i) && ChildOk(s, i) && ForkOk(s, i) && PidOk(s, i) {
    }
  }

  /** The states that the processes go through from the start, in any interleaving. */
  ghost predicate Run(ss: seq<State>) {
    && 0 < |ss| && Booted(ss[0])
    && forall i: nat :: i < |ss| - 1 ==> Step(ss[i], ss[i + 1])
  }

  lemma {:induction false} RunInv(ss: seq<State>, i: nat)
    requires Run(ss) && i < |ss|
    ensures Inv(ss[i])
  {
    hide Inv, Moves, Booted;
    if i == 0 {
      BootedInv(ss[0]);
    } else {
      RunInv(ss, i - 1);
      var j: nat := i - 1;
      assert Step(ss[j], ss[j + 1]);
      var p: nat :| Moves(ss[j], ss[j + 1], p);
      StepKeeps(ss[j], ss[j + 1], p);
    }
  }

  // ----- what it means -----

  /** No lost wakeup: in every interleaving, when wait_lock is free, nobody sleeps in wait who has a zombie child. */
  lemma NoLostWakeup(ss: seq<State>, t: nat, i: nat, c: nat)
    requires Run(ss) && t < |ss| && ss[t].waitLock == None && i < |ss[t].procs| && c < |ss[t].procs|
    ensures var s := ss[t];
            !(s.procs[i].status == SLEEPING && s.procs[i].chan == Some(i) && s.procs[c].parent == Some(i) && s.procs[c].status == ZOMBIE)
  {
    RunInv(ss, t);
    Slot(ss[t], c);
    Slot(ss[t], i);
    hide Run;
  }

  /** No process has a parent that is a zombie or has gone. */
  lemma ParentsAlive(ss: seq<State>, t: nat, c: nat)
    requires Run(ss) && t < |ss| && c < |ss[t].procs| && ss[t].procs[c].parent.Some?
    ensures var q := ss[t].procs[c].parent.value; q < |ss[t].procs| && Alive(ss[t].procs[q])
  {
    RunInv(ss, t);
    Slot(ss[t], c);
    hide Run;
  }

  /** An exited process is reaped once, and with the status that it gave to exit: a step that delivers a status
      delivers that of one process, for which none has been delivered. */
  lemma ReapedOnce(ss: seq<State>, t: nat) returns (pid: nat)
    requires Run(ss) && t + 1 < |ss| && ss[t + 1].reaped != ss[t].reaped
    ensures pid !in ss[t].reaped && pid in ss[t].exited && ss[t + 1].reaped == ss[t].reaped[pid := ss[t].exited[pid]]
  {
    hide Inv, Booted, DoReparent, DoScan, DoFork;
    RunInv(ss, t);
    assert Step(ss[t], ss[t + 1]);
    var p: nat :| Moves(ss[t], ss[t + 1], p);
    OnlyScanReaps(ss[t], ss[t + 1], p);
    var copied, killed :| DoScan(ss[t], ss[t + 1], p, copied, killed);
    pid := ScanReaps(ss[t], ss[t + 1], p, copied, killed);
  }

  lemma OnlyScanReaps(s: State, s': State, p: nat)
    requires Moves(s, s', p) && s'.reaped != s.reaped
    ensures exists copied, killed :: DoScan(s, s', p, copied, killed)
  {
    hide DoScan;
  }

  lemma ScanReaps(s: State, s': State, p: nat, copied: bool, killed: bool) returns (pid: nat)
    requires Inv(s) && DoScan(s, s', p, copied, killed) && s'.reaped != s.reaped
    ensures pid !in s.reaped && pid in s.exited && s'.reaped == s.reaped[pid := s.exited[pid]]
  {
    var k := s.procs[p].pc.k;
    Slot(s, k);
    pid := s.procs[k].pid;
    hide Inv;
  }

  /** wait gives up for want of children only if there are none. */
  lemma NoChildren(s: State, p: nat, c: nat)
    requires Inv(s) && p < |s.procs| && c < |s.procs| && s.procs[p].pc.WaitScan? && s.procs[p].pc.k >= |s.procs| && !s.procs[p].pc.kids
    ensures s.procs[c].parent != Some(p)
  {
    Slot(s, c);
    hide Inv;
  }
}
