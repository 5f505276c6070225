/** Whole runs of the logging file system: file-system calls grouped into
    transactions, transactions committed or cut by a crash at any block write,
    and recoveries that may themselves be cut. */
module CrashRuns {
  import opened Blocks
  import opened Crash

  /** The calls that share one commit, each with its block updates in order. */
  datatype Tx = Tx(calls: seq<seq<Write>>)

  function Flatten(calls: seq<seq<Write>>): seq<Write> {
    if calls == [] then [] else calls[0] + Flatten(calls[1..])
  }

  /** The header entries left by log_write for the updates us: one per block,
      in order of first use, later updates of a block being absorbed. */
  function Logged(us: seq<Write>): seq<nat> {
    if us == [] then []
    else
      var l := Logged(us[..|us| - 1]);
      var b := us[|us| - 1].blk;
      if b in l then l else l + [b]
  }

  /** The final contents of the logged blocks, as the cache holds them at commit. */
  function Contents(d: Disk, us: seq<Write>): seq<Block>
    requires InRange(d, us)
  {
    LoggedTouched(us);
    seq(|Logged(us)|, i requires 0 <= i < |Logged(us)| =>
      (assert Logged(us)[i] in Logged(us); Apply(d, us)[Logged(us)[i]]))
  }

  lemma {:induction false} LoggedTouched(us: seq<Write>)
    ensures Distinct(Logged(us))
    ensures forall b :: b in Logged(us) <==> Touches(us, b)
  {
    if us != [] {
      var p, w := us[..|us| - 1], us[|us| - 1];
      LoggedTouched(p);
      assert us == p + [w];
      forall b: nat ensures Touches(us, b) <==> Touches(p, b) || w.blk == b {
        if Touches(p, b) {
          var i :| 0 <= i < |p| && p[i].blk == b;
          assert us[i].blk == b;
        }
        if w.blk == b {
          assert us[|us| - 1].blk == b;
        }
        if Touches(us, b) {
          var i :| 0 <= i < |us| && us[i].blk == b;
          assert i < |p| ==> p[i].blk == b;
        }
      }
    }
  }

  /** A transaction the log can take. */
  ghost predicate Admitted(lay: Layout, d: Disk, us: seq<Write>) {
    && LayoutOk(lay, d)
    && |Logged(us)| <= LOGSIZE
    && |Logged(us)| < lay.size
    && forall i :: 0 <= i < |us| ==> Home(lay, d, us[i].blk)
  }

  lemma AdmittedTx(lay: Layout, d: Disk, us: seq<Write>)
    requires Admitted(lay, d, us)
    ensures InRange(d, us) && TxOk(lay, d, Logged(us))
  {
  }

  /** Log absorption is sound: installing the last contents of each logged block
      once equals performing every update of every call in order. */
  lemma AbsorptionSound(lay: Layout, d: Disk, us: seq<Write>, e: Disk)
    requires Admitted(lay, d, us)
    requires InRange(d, us) && TxOk(lay, d, Logged(us))
    requires Updated(lay, d, Logged(us), Contents(d, us), e)
    ensures HomeEq(lay, e, Apply(d, us))
  {
    LoggedTouched(us);
    var l := Logged(us);
    forall b: nat | Home(lay, e, b) ensures e[b] == Apply(d, us)[b] {
      if b in l {
        var i :| 0 <= i < |l| && l[i] == b;
        assert e[l[i]] == Contents(d, us)[i];
      } else {
        ApplyAt(d, us, b);
        FinalUntouched(us, b, d[b]);
      }
    }
  }

  /** One stretch of a run, starting from a recovered disk. */
  datatype Event =
    | Commit(tx: Tx)
      // the machine stops after k block writes of the commit of tx (k == 0 also
      // stands for a stop before the commit), then recoveries are cut after
      // cuts[0], cuts[1], ... writes before one completes
    | Crash(tx: Tx, k: nat, cuts: seq<nat>)

  /** Does the event make the updates of its transaction durable? */
  predicate Survives(ev: Event) {
    match ev
    case Commit(tx) => true
    case Crash(tx, k, cuts) => PastCommitPoint(Logged(Flatten(tx.calls)), k)
  }

  ghost predicate EventOk(lay: Layout, d: Disk, ev: Event) {
    Admitted(lay, d, Flatten(ev.tx.calls))
  }

  /** The disk after the event. */
  ghost function After(lay: Layout, d: Disk, ev: Event): (e: Disk)
    requires LogEmpty(lay, d) && EventOk(lay, d, ev)
    ensures |e| == |d| && LogEmpty(lay, e)
    ensures HomeEq(lay, e, if Survives(ev) then (AdmittedTx(lay, d, Flatten(ev.tx.calls)); Apply(d, Flatten(ev.tx.calls))) else d)
  {
    var us := Flatten(ev.tx.calls);
    AdmittedTx(lay, d, us);
    match ev
    case Commit(_) =>
      CommitCompletes(lay, d, us);
      CutCommit(lay, d, Logged(us), Contents(d, us), |CommitWrites(lay, d, Logged(us), Contents(d, us))|)
    case Crash(_, k, cuts) =>
      CrashInCommit(lay, d, us, k, cuts);
      Recovered(lay, CutAll(lay, CutCommit(lay, d, Logged(us), Contents(d, us), k), cuts))
  }

  lemma CrashInCommit(lay: Layout, d: Disk, us: seq<Write>, k: nat, cuts: seq<nat>)
    requires LogEmpty(lay, d) && Admitted(lay, d, us)
    requires InRange(d, us) && TxOk(lay, d, Logged(us))
    ensures LogOk(lay, CutCommit(lay, d, Logged(us), Contents(d, us), k))
    ensures var e := Recovered(lay, CutAll(lay, CutCommit(lay, d, Logged(us), Contents(d, us), k), cuts));
            LogEmpty(lay, e) && HomeEq(lay, e, if PastCommitPoint(Logged(us), k) then Apply(d, us) else d)
  {
    CommitIsAtomic(lay, d, Logged(us), Contents(d, us), k, cuts);
    if PastCommitPoint(Logged(us), k) {
      AbsorptionSound(lay, d, us, Recovered(lay, CutAll(lay, CutCommit(lay, d, Logged(us), Contents(d, us), k), cuts)));
    }
  }

  lemma LoggedNothing(us: seq<Write>)
    ensures us != [] ==> Logged(us) != []
  {
  }

  /** A complete commit ends on the disk that recovery makes of its commit point. */
  lemma CommitIsRecovery(lay: Layout, d: Disk, l: seq<nat>, c: seq<Block>)
    requires TxOk(lay, d, l) && |c| == |l| && l != []
    ensures LogOk(lay, Committed(lay, d, l, c))
    ensures CutCommit(lay, d, l, c, |CommitWrites(lay, d, l, c)|) == Recovered(lay, Committed(lay, d, l, c))
  {
    var k, f := |CommitWrites(lay, d, l, c)|, Committed(lay, d, l, c);
    TxEntries(lay, d, l);
    RestOfCommitIsRecovery(lay, d, l, c);
    assert k == 2 * |l| + 2 && |RecoverWrites(lay, f)| == |l| + 1;
    CutAfterCommitPoint(lay, d, l, c, k);
    hide CutCommit, Committed, RecoverWrites, TxOk, LogOk, CommitWrites;
    assert RecoverWrites(lay, f)[..|RecoverWrites(lay, f)|] == RecoverWrites(lay, f);
  }

  lemma CommitCompletes(lay: Layout, d: Disk, us: seq<Write>)
    requires LogEmpty(lay, d) && Admitted(lay, d, us)
    requires InRange(d, us) && TxOk(lay, d, Logged(us))
    ensures var e := CutCommit(lay, d, Logged(us), Contents(d, us), |CommitWrites(lay, d, Logged(us), Contents(d, us))|);
            LogEmpty(lay, e) && HomeEq(lay, e, Apply(d, us))
  {
    var l, c := Logged(us), Contents(d, us);
    LoggedTouched(us);
    if l == [] {
      LoggedNothing(us);
    } else {
      CommitIsRecovery(lay, d, l, c);
      RecoveredInstallsAll(lay, d, l, c);
      RecoveredEmpty(lay, Committed(lay, d, l, c));
      AbsorptionSound(lay, d, us, Recovered(lay, Committed(lay, d, l, c)));
      hide *;
    }
  }

  ghost predicate RunOk(lay: Layout, d: Disk, evs: seq<Event>) {
    LogEmpty(lay, d) && forall i :: 0 <= i < |evs| ==> EventOk(lay, d, evs[i])
  }

  /** The disk after a whole run. */
  ghost function Run(lay: Layout, d: Disk, evs: seq<Event>): (e: Disk)
    requires RunOk(lay, d, evs)
    ensures |e| == |d| && LogEmpty(lay, e)
    decreases |evs|
  {
    if evs == [] then d
    else
      RunStep(lay, d, evs);
      Run(lay, After(lay, d, evs[0]), evs[1..])
  }

  lemma RunStep(lay: Layout, d: Disk, evs: seq<Event>)
    requires RunOk(lay, d, evs) && evs != []
    ensures EventOk(lay, d, evs[0]) && RunOk(lay, After(lay, d, evs[0]), evs[1..])
  {
  }

  /** The calls of the transactions that became durable, in order. */
  function DurableCalls(evs: seq<Event>): seq<seq<Write>> {
    if evs == [] then []
    else (if Survives(evs[0]) then evs[0].tx.calls else []) + DurableCalls(evs[1..])
  }

  lemma {:induction false} FlattenConcat(a: seq<seq<Write>>, b: seq<seq<Write>>)
    ensures Flatten(a + b) == Flatten(a) + Flatten(b)
  {
    if a == [] {
      assert a + b == b;
    } else {
      assert (a + b)[1..] == a[1..] + b;
      FlattenConcat(a[1..], b);
    }
  }

  lemma HomeEqApply(lay: Layout, d: Disk, e: Disk, us: seq<Write>)
    requires HomeEq(lay, d, e) && InRange(d, us)
    ensures InRange(e, us) && HomeEq(lay, Apply(d, us), Apply(e, us))
  {
    forall b: nat | Home(lay, d, b) ensures Apply(d, us)[b] == Apply(e, us)[b] {
      ApplyAt(d, us, b);
      ApplyAt(e, us, b);
    }
  }

  lemma {:induction false} DurableInRange(lay: Layout, d: Disk, evs: seq<Event>)
    requires RunOk(lay, d, evs)
    ensures InRange(d, Flatten(DurableCalls(evs)))
    decreases |evs|
  {
    if evs != [] {
      assert EventOk(lay, d, evs[0]);
      AdmittedTx(lay, d, Flatten(evs[0].tx.calls));
      assert RunOk(lay, d, evs[1..]);
      DurableInRange(lay, d, evs[1..]);
      FlattenConcat(if Survives(evs[0]) then evs[0].tx.calls else [], DurableCalls(evs[1..]));
    }
  }

  /** Crash atomicity over whole runs. After any sequence of commits, crashes at
      any block write and interrupted recoveries, the home blocks hold exactly
      the updates of the durable transactions, call by call and in order: every
      call of a transaction is there in full or not at all, and no completed
      commit is ever lost. */
  lemma {:induction false} RunIsAtomic(lay: Layout, d: Disk, evs: seq<Event>)
    requires RunOk(lay, d, evs)
    ensures InRange(d, Flatten(DurableCalls(evs)))
    ensures HomeEq(lay, Run(lay, d, evs), Apply(d, Flatten(DurableCalls(evs))))
    decreases |evs|
  {
    DurableInRange(lay, d, evs);
    if evs != [] {
      RunStep(lay, d, evs);
      var e := After(lay, d, evs[0]);
      var us := Flatten(evs[0].tx.calls);
      AdmittedTx(lay, d, us);
      RunIsAtomic(lay, e, evs[1..]);
      var rest := Flatten(DurableCalls(evs[1..]));
      var head := if Survives(evs[0]) then evs[0].tx.calls else [];
      FlattenConcat(head, DurableCalls(evs[1..]));
      ApplyConcat(d, Flatten(head), rest);
      HomeEqApply(lay, e, Apply(d, Flatten(head)), rest);
    }
  }
}
