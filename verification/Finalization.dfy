/** Completion, failure and cancellation: short programs of statements over the store, what they
    make of a task, its latest run and its lease, and what interleaving can do to them. */
module Finalization {
  import opened Store
  import opened Protocol

  // ----- the operations as functions of the store -----

  /** The latest run of the task, if any, gets a final status. */
  function FinishRun(s: Store, t: nat, status: RunStatus): Store {
    var r := LatestRun(s.runs, t);
    if r >= 0 then Exec(s, UpdateRun(r, status)) else s
  }

  ghost predicate IsActiveLeaseOf(s: Store, t: nat, l: Lease) {
    l in s.leases && l.task == t && l.expires > s.now
  }

  /** The active lease of the task, if any, is deleted. */
  function ReleaseActive(s: Store, t: nat): Store {
    s.(leases := set l | l in s.leases && !(l.task == t && l.expires > s.now))
  }

  function CompleteTask(s: Store, t: nat): Store {
    if CanSucceed(s, t)
    then ReleaseActive(FinishRun(Exec(s, MarkSucceeded(t)), t, RunSucceeded), t)
    else s
  }

  /** The status update may match no row; the run and the lease are touched all the same. */
  function FailTask(s: Store, t: nat): Store {
    ReleaseActive(FinishRun(Exec(s, MarkFailed(t)), t, RunFailed), t)
  }

  /** The v2 endpoint refuses a task whose v2 status is final. */
  function FailGuarded(s: Store, t: nat): Store {
    if t !in s.tasks || TerminalV2(s.tasks[t].v2) then s else FailTask(s, t)
  }

  function CancelTask(s: Store, t: nat): Store {
    var s1 := Exec(s, MarkCancelled(t));
    var r := LatestRun(s1.runs, t);
    var s2 := if r >= 0 && !TerminalRun(s1.runs[r].status) then Exec(s1, UpdateRun(r, RunCancelled)) else s1;
    ReleaseActive(s2, t)
  }

  /** The v1 status endpoint: final words go through completion or the unguarded failure, open
      words are written directly. */
  function UpdateStatus(s: Store, t: nat, word: StatusV1): Store {
    match word
    case Complete => CompleteTask(s, t)
    case FailedV1 => FailTask(s, t)
    case NotPicked => Exec(s, WriteV1(t, false))
    case InProgress => Exec(s, WriteV1(t, true))
  }

  /** An open word changes nothing but the columns of the task: NOT_PICKED queues it, IN_PROGRESS
      marks it claimed. */
  ghost predicate Rewritten(s: Store, s': Store, t: nat, word: StatusV1) {
    && s' == s.(tasks := s'.tasks) && s'.tasks.Keys == s.tasks.Keys
    && (forall u :: u in s.tasks && u != t ==> s'.tasks[u] == s.tasks[u])
    && (t in s.tasks ==>
          s'.tasks[t] == s.tasks[t].(v1 := word, v2 := if word == InProgress then Claimed else Queued, updatedAt := s.now))
  }

  /** The columns of a task after each of the four words: the final ones leave a closed task
      alone, and COMPLETE a cancelled one. */
  ghost function WordColumns(a: Task, word: StatusV1, now: nat): Task {
    match word
    case NotPicked => a.(v1 := NotPicked, v2 := Queued, updatedAt := now)
    case InProgress => a.(v1 := InProgress, v2 := Claimed, updatedAt := now)
    case Complete =>
      if OpenV1(a.v1) && a.v2 != Cancelled then a.(v1 := StatusV1.Complete, v2 := Succeeded, updatedAt := now) else a
    case FailedV1 => if OpenV1(a.v1) then a.(v1 := FailedV1, v2 := Failed, updatedAt := now) else a
  }

  lemma UpdateStatusEffect(s: Store, t: nat, word: StatusV1, u: nat)
    requires u in s.tasks
    ensures u in UpdateStatus(s, t, word).tasks
    ensures UpdateStatus(s, t, word).tasks[u] == if u == t then WordColumns(s.tasks[t], word, s.now) else s.tasks[u]
  {
  }

  // ----- the programs -----

  class FinalizationService {
    var db: Store

    constructor (db: Store)
      ensures this.db == db
    {
      this.db := db;
    }

    method Run(st: Stmt) returns (changed: bool)
      modifies this
      ensures db == Exec(old(db), st) && changed == (db != old(db))
    {
      var next := Exec(db, st);
      changed := next != db;
      db := next;
    }

    /** Look the active lease up, then delete it by its identifier. */
    method Release(t: nat)
      requires LeasesOk(db)
      modifies this
      ensures db == ReleaseActive(old(db), t)
    {
      var found := set l | l in db.leases && l.task == t && l.expires > db.now;
      if found != {} {
        var l :| l in found;
        DeleteIsRelease(db, t, l);
        var _ := Run(DeleteLease(l.id));
      } else {
        NothingToRelease(db, t);
      }
    }

    method Complete(t: nat) returns (ok: bool)
      requires LeasesOk(db)
      modifies this
      ensures ok <==> CanSucceed(old(db), t)
      ensures db == CompleteTask(old(db), t)
    {
      ok := CanSucceed(db, t);
      var _ := Run(MarkSucceeded(t));
      if !ok {
        return;
      }
      LeasesOkStep(old(db), MarkSucceeded(t));
      var r := LatestRun(db.runs, t);
      if r >= 0 {
        ghost var before := db;
        var _ := Run(UpdateRun(r, RunSucceeded));
        LeasesOkStep(before, UpdateRun(r, RunSucceeded));
      }
      Release(t);
    }

    method Fail(t: nat)
      requires LeasesOk(db)
      modifies this
      ensures db == FailTask(old(db), t)
    {
      var _ := Run(MarkFailed(t));
      LeasesOkStep(old(db), MarkFailed(t));
      var r := LatestRun(db.runs, t);
      if r >= 0 {
        ghost var before := db;
        var _ := Run(UpdateRun(r, RunFailed));
        LeasesOkStep(before, UpdateRun(r, RunFailed));
      }
      Release(t);
    }

    method FailV2(t: nat) returns (ok: bool)
      requires LeasesOk(db)
      modifies this
      ensures ok <==> t in old(db).tasks && !TerminalV2(old(db).tasks[t].v2)
      ensures db == FailGuarded(old(db), t)
    {
      ok := t in db.tasks && !TerminalV2(db.tasks[t].v2);
      if ok {
        Fail(t);
      }
    }

    method UpdateStatusV1(t: nat, word: StatusV1) returns (ok: bool)
      requires LeasesOk(db)
      modifies this
      ensures db == UpdateStatus(old(db), t, word)
      ensures word == NotPicked || word == InProgress ==> Rewritten(old(db), db, t, word)
      ensures ok <==> if word == StatusV1.Complete then CanSucceed(old(db), t) else word == FailedV1 || t in old(db).tasks
    {
      match word {
        case Complete => ok := Complete(t);
        case FailedV1 =>
          Fail(t);
          ok := true;
        case _ =>
          ok := t in db.tasks;
          if ok {
            var _ := Run(WriteV1(t, word == InProgress));
          }
      }
    }

    method Cancel(t: nat)
      requires LeasesOk(db)
      modifies this
      ensures db == CancelTask(old(db), t)
    {
      var _ := Run(MarkCancelled(t));
      LeasesOkStep(old(db), MarkCancelled(t));
      var r := LatestRun(db.runs, t);
      if r >= 0 && !TerminalRun(db.runs[r].status) {
        ghost var before := db;
        var _ := Run(UpdateRun(r, RunCancelled));
        LeasesOkStep(before, UpdateRun(r, RunCancelled));
      }
      Release(t);
    }
  }

  // ----- the run and the lease agree with the task -----

  /** What a reader of one task sees: its columns, its latest run, whether it is held. */
  datatype View = View(task: Task, hasRun: bool, run: RunStatus, held: bool)

  ghost function ViewOf(s: Store, t: nat): View
    requires t in s.tasks
  {
    var r := LatestRun(s.runs, t);
    View(s.tasks[t], r >= 0, if r >= 0 then s.runs[r].status else RunRunning, HasActiveLease(s, t))
  }

  /** SUCCEEDED: the latest run, if any, succeeded. FAILED: it failed. CANCELLED: it is over.
      In all three cases nobody holds the task. */
  ghost predicate ViewAgrees(v: View) {
    TerminalV2(v.task.v2) ==>
      && !v.held
      && (v.hasRun ==>
            match v.task.v2
            case Succeeded => v.run == RunSucceeded
            case Failed => v.run == RunFailed
            case _ => TerminalRun(v.run))
  }

  ghost predicate Agree(s: Store) {
    forall t :: t in s.tasks ==> ViewAgrees(ViewOf(s, t))
  }

  /** The operations whose runs are considered, each uninterrupted. */
  datatype Op =
    | DoInsert(project: string, kind: string, priority: int, planner: bool, needsApproval: bool)
    | DoClaim(task: nat, agent: string)
    | DoComplete(task: nat)
    | DoFail(task: nat)
    | DoCancel(task: nat)
    | DoHeartbeat(id: nat)
    | DoRelease(id: nat)
    | DoExpire
    | DoRequeue(task: nat)
    | DoWriteV1(task: nat, inProgress: bool)
    | DoApprove(task: nat, ok: bool)
    | DoSpawn(project: string)
    | DoTick(seconds: nat)

  function Apply(s: Store, op: Op): Store {
    match op
    case DoInsert(p, k, n, pl, ap) => Exec(s, Insert(p, k, n, pl, ap))
    case DoClaim(t, a) => Exec(s, Claim(t, a))
    case DoComplete(t) => CompleteTask(s, t)
    case DoFail(t) => FailGuarded(s, t)
    case DoCancel(t) => CancelTask(s, t)
    case DoHeartbeat(id) => Exec(s, Heartbeat(id))
    case DoRelease(id) => Exec(s, DeleteLease(id))
    case DoExpire => Exec(s, ExpireLeases)
    case DoRequeue(t) => Exec(s, Requeue(t))
    case DoWriteV1(t, b) => Exec(s, WriteV1(t, b))
    case DoApprove(t, ok) => Exec(s, Approve(t, ok))
    case DoSpawn(p) => Exec(s, SpawnPlanner(p))
    case DoTick(d) => Exec(s, Tick(d))
  }

  function ApplyAll(s: Store, ops: seq<Op>): Store {
    if ops == [] then s else Apply(ApplyAll(s, ops[..|ops| - 1]), ops[|ops| - 1])
  }

  ghost predicate Inv(s: Store) {
    LeasesOk(s) && Coherent(s) && IdsOk(s)
  }

  lemma InvStep(s: Store, st: Stmt)
    requires Inv(s)
    ensures Inv(Exec(s, st))
  {
    LeasesOkStep(s, st);
    CoherentStep(s, st);
  }

  /** Releasing the active lease is the deletion of one row. */
  lemma DeleteIsRelease(s: Store, t: nat, l: Lease)
    requires LeasesOk(s) && IsActiveLeaseOf(s, t, l)
    ensures Exec(s, DeleteLease(l.id)) == ReleaseActive(s, t)
  {
    forall m | m in s.leases ensures m.id != l.id <==> !(m.task == t && m.expires > s.now) {
    }
  }

  lemma NothingToRelease(s: Store, t: nat)
    requires (set l | l in s.leases && l.task == t && l.expires > s.now) == {}
    ensures ReleaseActive(s, t) == s
  {
    var found := set l | l in s.leases && l.task == t && l.expires > s.now;
    forall l | l in s.leases ensures !(l.task == t && l.expires > s.now) {
      assert l !in found;
    }
    assert ReleaseActive(s, t).leases == s.leases;
  }

  lemma ReleaseEffect(s: Store, t: nat, u: nat)
    ensures HasActiveLease(ReleaseActive(s, t), u) <==> u != t && HasActiveLease(s, u)
  {
    var s' := ReleaseActive(s, t);
    if u != t && HasActiveLease(s, u) {
      var l :| l in s.leases && l.task == u && l.expires > s.now;
      assert l in s'.leases;
    }
  }

  /** Writing a status to the latest run of `t` changes that run only. */
  lemma UpdateRunEffect(s: Store, t: nat, status: RunStatus, u: nat)
    ensures var s' := FinishRun(s, t, status);
            && s'.tasks == s.tasks && s'.leases == s.leases && s'.now == s.now && s'.nextTask == s.nextTask
            && |s'.runs| == |s.runs| && LatestRun(s'.runs, u) == LatestRun(s.runs, u)
            && (LatestRun(s.runs, u) >= 0 ==>
                  s'.runs[LatestRun(s.runs, u)].status == if u == t then status else s.runs[LatestRun(s.runs, u)].status)
  {
    var r := LatestRun(s.runs, t);
    if r >= 0 {
      LatestRunUpdate(s.runs, r, status, u);
    }
  }

  /** The view after a finalization that writes `v1`, `v2` and the run status `run`. */
  function Finalized(v: View, v1: StatusV1, v2: StatusV2, run: RunStatus, now: nat): View {
    View(v.task.(v1 := v1, v2 := v2, updatedAt := now), v.hasRun, if v.hasRun then run else v.run, false)
  }

  function Released(v: View, run: RunStatus): View {
    v.(run := if v.hasRun then run else v.run, held := false)
  }

  lemma ViewAfter(s: Store, t: nat, status: RunStatus, u: nat)
    requires u in s.tasks
    ensures ViewOf(ReleaseActive(FinishRun(s, t, status), t), u)
         == if u == t then Released(ViewOf(s, u), status) else ViewOf(s, u)
  {
    UpdateRunEffect(s, t, status, u);
    ReleaseEffect(FinishRun(s, t, status), t, u);
    assert HasActiveLease(FinishRun(s, t, status), u) <==> HasActiveLease(s, u);
  }

  lemma ViewReleased(s: Store, t: nat, u: nat)
    requires u in s.tasks
    ensures ViewOf(ReleaseActive(s, t), u) == ViewOf(s, u).(held := u != t && ViewOf(s, u).held)
  {
    ReleaseEffect(s, t, u);
  }

  lemma ViewAfterMark(s: Store, t: nat, v1: StatusV1, v2: StatusV2, u: nat)
    requires t in s.tasks && u in s.tasks
    ensures ViewOf(SetStatus(s, t, v1, v2), u)
         == if u == t then ViewOf(s, u).(task := s.tasks[t].(v1 := v1, v2 := v2, updatedAt := s.now)) else ViewOf(s, u)
  {
    assert HasActiveLease(SetStatus(s, t, v1, v2), u) <==> HasActiveLease(s, u);
  }

  /** Completing an open task: it, its latest run and its lease are final; every other task is
      seen exactly as before. On a closed task nothing changes. */
  lemma CompleteEffect(s: Store, t: nat, u: nat)
    requires Inv(s) && u in s.tasks
    ensures var s' := CompleteTask(s, t);
            && s'.tasks.Keys == s.tasks.Keys && (!CanSucceed(s, t) ==> s' == s)
            && (CanSucceed(s, t) ==>
                  ViewOf(s', u) == (if u == t then Finalized(ViewOf(s, t), Complete, Succeeded, RunSucceeded, s.now)
                                    else ViewOf(s, u)))
  {
    if CanSucceed(s, t) {
      ViewAfterMark(s, t, Complete, Succeeded, u);
      ViewAfter(SetStatus(s, t, Complete, Succeeded), t, RunSucceeded, u);
    }
  }

  /** Failing a task: an open one fails with its run; a closed one keeps its status, but its
      latest run is overwritten all the same. */
  lemma FailEffect(s: Store, t: nat, u: nat)
    requires Inv(s) && u in s.tasks
    ensures var s' := FailTask(s, t);
            && s'.tasks.Keys == s.tasks.Keys
            && ViewOf(s', u) ==
               if u != t then ViewOf(s, u)
               else if OpenV1(s.tasks[t].v1) then Finalized(ViewOf(s, t), FailedV1, Failed, RunFailed, s.now)
               else Released(ViewOf(s, t), RunFailed)
  {
    var s1 := Exec(s, MarkFailed(t));
    if t in s.tasks && OpenV1(s.tasks[t].v1) {
      ViewAfterMark(s, t, FailedV1, Failed, u);
    }
    ViewAfter(s1, t, RunFailed, u);
  }

  lemma CancelEffect(s: Store, t: nat, u: nat)
    requires Inv(s) && u in s.tasks
    ensures var s' := CancelTask(s, t); var v := ViewOf(s, u);
            && s'.tasks.Keys == s.tasks.Keys
            && ViewOf(s', u) ==
               if u != t then v
               else var run := if TerminalRun(v.run) then v.run else RunCancelled;
                    if v.task.v1 != Complete then Finalized(v, Complete, Cancelled, run, s.now) else Released(v, run)
  {
    var s1 := Exec(s, MarkCancelled(t));
    if t in s.tasks && s.tasks[t].v1 != Complete {
      ViewAfterMark(s, t, Complete, Cancelled, u);
    }
    var r := LatestRun(s1.runs, t);
    if r >= 0 && !TerminalRun(s1.runs[r].status) {
      ViewAfter(s1, t, RunCancelled, u);
    } else {
      ViewReleased(s1, t, u);
    }
  }

  /** A statement outside of finalization either leaves a task open or leaves its columns and
      its latest run alone, and it never makes a closed task held. */
  lemma OtherEffect(s: Store, st: Stmt, u: nat)
    requires Inv(s) && u in Exec(s, st).tasks && OutsideFinalization(st)
    ensures var s' := Exec(s, st);
            TerminalV2(s'.tasks[u].v2) ==>
              && u in s.tasks && s'.tasks[u].v2 == s.tasks[u].v2
              && ViewOf(s', u).hasRun == ViewOf(s, u).hasRun && ViewOf(s', u).run == ViewOf(s, u).run
              && (ViewOf(s', u).held ==> ViewOf(s, u).held)
  {
    var s' := Exec(s, st);
    if TerminalV2(s'.tasks[u].v2) {
      ColumnsAfter(s, st, u);
      RunAfter(s, st, u);
      HeldAfter(s, st, u);
    }
  }

  predicate OutsideFinalization(st: Stmt) {
    st.Insert? || st.Claim? || st.DeleteLease? || st.Heartbeat? || st.ExpireLeases? || st.Requeue?
    || st.WriteV1? || st.Approve? || st.SpawnPlanner? || st.Tick?
  }

  lemma ColumnsAfter(s: Store, st: Stmt, u: nat)
    requires OutsideFinalization(st) && u in Exec(s, st).tasks && TerminalV2(Exec(s, st).tasks[u].v2)
    ensures u in s.tasks && Exec(s, st).tasks[u].v2 == s.tasks[u].v2
    ensures !(st.Claim? && st.task == u && Granted(s, st))
  {
  }

  lemma RunAfter(s: Store, st: Stmt, u: nat)
    requires OutsideFinalization(st) && !(st.Claim? && st.task == u && Granted(s, st))
    ensures var runs := Exec(s, st).runs;
            LatestRun(runs, u) == LatestRun(s.runs, u) < |s.runs| <= |runs| && runs[..|s.runs|] == s.runs
  {
    if st.Claim? && Granted(s, st) {
      LatestRunAppend(s.runs, Run(st.task, st.agent, RunRunning), u);
    } else {
      assert Exec(s, st).runs == s.runs;
    }
  }

  lemma HeldAfter(s: Store, st: Stmt, u: nat)
    requires LeasesOk(s) && OutsideFinalization(st) && !(st.Claim? && st.task == u && Granted(s, st))
    ensures HasActiveLease(Exec(s, st), u) ==> HasActiveLease(s, u)
  {
    var s' := Exec(s, st);
    if HasActiveLease(s', u) {
      var l :| l in s'.leases && l.task == u && l.expires > s'.now;
      if l.id != s.nextLease {
        var l0 := Source(s, st, l);
      } else if !st.Claim? {
        assert s'.nextLease == s.nextLease;
        LeasesOkStep(s, st);
      }
    }
  }

  lemma AgreeComplete(s: Store, t: nat)
    requires Inv(s) && Agree(s)
    ensures Inv(CompleteTask(s, t)) && Agree(CompleteTask(s, t))
  {
    var s' := CompleteTask(s, t);
    assert Inv(s') by { InvFinalized(s, MarkSucceeded(t), t, RunSucceeded); }
    forall u | u in s'.tasks ensures ViewAgrees(ViewOf(s', u)) {
      KeysKept(s, MarkSucceeded(t), t, RunSucceeded);
      CompleteEffect(s, t, u);
      assert ViewAgrees(ViewOf(s, u));
    }
  }

  lemma AgreeFail(s: Store, t: nat)
    requires Inv(s) && Agree(s)
    ensures Inv(FailGuarded(s, t)) && Agree(FailGuarded(s, t))
  {
    if t in s.tasks && !TerminalV2(s.tasks[t].v2) {
      var s' := FailTask(s, t);
      assert Inv(s') by { InvFinalized(s, MarkFailed(t), t, RunFailed); }
      forall u | u in s'.tasks ensures ViewAgrees(ViewOf(s', u)) {
        KeysKept(s, MarkFailed(t), t, RunFailed);
        FailEffect(s, t, u);
        assert ViewAgrees(ViewOf(s, u));
        assert CoherentPair(s.tasks[t].v1, s.tasks[t].v2);
      }
    }
  }

  lemma AgreeCancel(s: Store, t: nat)
    requires Inv(s) && Agree(s)
    ensures Inv(CancelTask(s, t)) && Agree(CancelTask(s, t))
  {
    var s' := CancelTask(s, t);
    assert Inv(s') by {
      InvFinalized(s, MarkCancelled(t), t, RunCancelled);
      InvReleased(Exec(s, MarkCancelled(t)), t);
      InvStep(s, MarkCancelled(t));
    }
    forall u | u in s'.tasks ensures ViewAgrees(ViewOf(s', u)) {
      KeysKept(s, MarkCancelled(t), t, RunCancelled);
      CancelEffect(s, t, u);
      assert ViewAgrees(ViewOf(s, u));
    }
  }

  lemma AgreeSingle(s: Store, op: Op)
    requires Inv(s) && Agree(s) && !op.DoComplete? && !op.DoFail? && !op.DoCancel?
    ensures Inv(Apply(s, op)) && Agree(Apply(s, op))
  {
    var st := Single(op);
    SingleIs(s, op);
    var s' := Exec(s, st);
    assert Inv(s') by { InvStep(s, st); }
    forall u | u in s'.tasks ensures ViewAgrees(ViewOf(s', u)) {
      OtherEffect(s, st, u);
      if u in s.tasks {
        assert ViewAgrees(ViewOf(s, u));
      }
    }
  }

  lemma AgreeStep(s: Store, op: Op)
    requires Inv(s) && Agree(s)
    ensures Inv(Apply(s, op)) && Agree(Apply(s, op))
  {
    match op {
      case DoComplete(t) => AgreeComplete(s, t);
      case DoFail(t) => AgreeFail(s, t);
      case DoCancel(t) => AgreeCancel(s, t);
      case _ => AgreeSingle(s, op);
    }
  }

  /** The one statement of an operation that has only one. */
  function Single(op: Op): Stmt
    requires !op.DoComplete? && !op.DoFail? && !op.DoCancel?
  {
    match op
    case DoInsert(p, k, n, pl, ap) => Insert(p, k, n, pl, ap)
    case DoClaim(t, a) => Claim(t, a)
    case DoHeartbeat(id) => Heartbeat(id)
    case DoRelease(id) => DeleteLease(id)
    case DoExpire => ExpireLeases
    case DoRequeue(t) => Requeue(t)
    case DoWriteV1(t, b) => WriteV1(t, b)
    case DoApprove(t, ok) => Approve(t, ok)
    case DoSpawn(p) => SpawnPlanner(p)
    case DoTick(d) => Tick(d)
  }

  lemma SingleIs(s: Store, op: Op)
    requires !op.DoComplete? && !op.DoFail? && !op.DoCancel?
    ensures Apply(s, op) == Exec(s, Single(op))
  {
  }

  lemma KeysKept(s: Store, st: Stmt, t: nat, status: RunStatus)
    requires st.MarkSucceeded? || st.MarkFailed? || st.MarkCancelled?
    ensures ReleaseActive(FinishRun(Exec(s, st), t, status), t).tasks.Keys == s.tasks.Keys
  {
  }

  lemma InvReleased(s: Store, t: nat)
    requires Inv(s)
    ensures Inv(ReleaseActive(s, t))
  {
  }

  lemma InvFinalized(s: Store, st: Stmt, t: nat, status: RunStatus)
    requires Inv(s)
    ensures Inv(ReleaseActive(FinishRun(Exec(s, st), t, status), t))
  {
    InvStep(s, st);
    var s1 := Exec(s, st);
    var r := LatestRun(s1.runs, t);
    if r >= 0 {
      InvStep(s1, UpdateRun(r, status));
    }
    InvReleased(FinishRun(s1, t, status), t);
  }

  /** Over every run of claims, completions, guarded failures, cancellations, heartbeats,
      releases, expiries, requeues, v1 writes, approvals and spawns, task, latest run and lease
      agree. */
  lemma {:induction false} AgreeAlways(s: Store, ops: seq<Op>)
    requires Inv(s) && Agree(s)
    ensures Inv(ApplyAll(s, ops)) && Agree(ApplyAll(s, ops))
    decreases |ops|
  {
    if ops != [] {
      AgreeAlways(s, ops[..|ops| - 1]);
      AgreeStep(ApplyAll(s, ops[..|ops| - 1]), ops[|ops| - 1]);
    }
  }

  // ----- the two operations that break the agreement, and exactly when -----

  /** The v1 failure path has no guard: it keeps the agreement unless the task has already
      succeeded and has a run, which it then marks as failed. */
  lemma UnguardedFailExactly(s: Store, t: nat)
    requires Inv(s) && Agree(s)
    ensures Agree(FailTask(s, t))
            <==> !(t in s.tasks && s.tasks[t].v2 == Succeeded && LatestRun(s.runs, t) >= 0)
  {
    var s' := FailTask(s, t);
    KeysKept(s, MarkFailed(t), t, RunFailed);
    forall u | u in s.tasks && u != t ensures ViewAgrees(ViewOf(s', u)) {
      FailEffect(s, t, u);
      assert ViewAgrees(ViewOf(s, u));
    }
    if t in s.tasks {
      UnguardedFailOne(s, t);
    }
  }

  lemma UnguardedFailOne(s: Store, t: nat)
    requires Inv(s) && Agree(s) && t in s.tasks && t in FailTask(s, t).tasks
    ensures ViewAgrees(ViewOf(FailTask(s, t), t)) <==> !(s.tasks[t].v2 == Succeeded && LatestRun(s.runs, t) >= 0)
  {
    assert CoherentPair(s.tasks[t].v1, s.tasks[t].v2);
    assert ViewAgrees(ViewOf(s, t));
    FailEffect(s, t, t);
  }

  /** The v1 status endpoint, over all its words, breaks the agreement in that case only. */
  lemma UpdateStatusExactly(s: Store, t: nat, word: StatusV1)
    requires Inv(s) && Agree(s)
    ensures Agree(UpdateStatus(s, t, word))
            <==> !(word == FailedV1 && t in s.tasks && s.tasks[t].v2 == Succeeded && LatestRun(s.runs, t) >= 0)
  {
    match word {
      case Complete => AgreeComplete(s, t);
      case FailedV1 => UnguardedFailExactly(s, t);
      case NotPicked => AgreeSingle(s, DoWriteV1(t, false));
      case InProgress => AgreeSingle(s, DoWriteV1(t, true));
    }
  }

  /** Creating a lease by hand keeps the agreement unless the task is over. */
  lemma DirectLeaseExactly(s: Store, t: nat, agent: string)
    requires Inv(s) && Agree(s)
    ensures Agree(Exec(s, CreateLease(t, agent))) <==> !(t in s.tasks && TerminalV2(s.tasks[t].v2))
  {
    var s' := Exec(s, CreateLease(t, agent));
    if t in s.tasks && TerminalV2(s.tasks[t].v2) {
      assert ViewAgrees(ViewOf(s, t));
      assert !HasActiveLease(s, t);
      assert LeaseGranted(s, t);
      assert Lease(s.nextLease, t, agent, s.now + LEASE_TTL) in s'.leases;
      assert HasActiveLease(s', t);
      assert !ViewAgrees(ViewOf(s', t));
    } else {
      forall u | u in s'.tasks ensures ViewAgrees(ViewOf(s', u)) {
        assert ViewAgrees(ViewOf(s, u));
        if u != t && HasActiveLease(s', u) {
          var l :| l in s'.leases && l.task == u && l.expires > s'.now;
          assert l in s.leases;
        }
      }
    }
  }

  // ----- what interleaving does -----

  /** The guard of the v2 failure path is a separate read. When a completion comes between the
      guard and the failure, the task ends SUCCEEDED with a FAILED run. */
  lemma GuardIsRaced(s: Store, t: nat)
    requires Inv(s) && t in s.tasks && OpenV1(s.tasks[t].v1) && LatestRun(s.runs, t) >= 0
    ensures !TerminalV2(s.tasks[t].v2)
    ensures var v := ViewOf(FailTask(CompleteTask(s, t), t), t); v.task.v2 == Succeeded && v.run == RunFailed
  {
    assert CoherentPair(s.tasks[t].v1, s.tasks[t].v2);
    CompleteEffect(s, t, t);
    var s1 := CompleteTask(s, t);
    assert Inv(s1) by { InvFinalized(s, MarkSucceeded(t), t, RunSucceeded); }
    assert s1.tasks[t].v1 == Complete && s1.tasks[t].v2 == Succeeded && ViewOf(s1, t).hasRun by {
      assert ViewOf(s1, t).task == s1.tasks[t];
    }
    FailedOnTop(s1, t);
  }

  lemma FailedOnTop(s: Store, t: nat)
    requires Inv(s) && t in s.tasks && s.tasks[t].v2 == Succeeded && LatestRun(s.runs, t) >= 0
    ensures t in FailTask(s, t).tasks
    ensures var v := ViewOf(FailTask(s, t), t); v.task.v2 == Succeeded && v.run == RunFailed
  {
    assert CoherentPair(s.tasks[t].v1, s.tasks[t].v2);
    FailEffect(s, t, t);
  }

  /** A completion is not one transaction. When another agent claims the task right after its
      status was written, the rest of the completion closes that agent's run and takes that
      agent's lease away: the task stands CLAIMED, with a run that succeeded, held by nobody. */
  lemma CompletionIsRaced(s: Store, t: nat, agent: string)
    requires Inv(s) && t in s.tasks && OpenV1(s.tasks[t].v1) && !HasActiveLease(s, t)
    ensures var s1 := Exec(s, MarkSucceeded(t));
            var s2 := Exec(s1, Claim(t, agent));
            var v := ViewOf(ReleaseActive(FinishRun(s2, t, RunSucceeded), t), t);
            && Granted(s1, Claim(t, agent)) && s2.runs[LatestRun(s2.runs, t)] == Run(t, agent, RunRunning)
            && v.task.v2 == Claimed && v.run == RunSucceeded && !v.held
  {
    assert CoherentPair(s.tasks[t].v1, s.tasks[t].v2);
    var s1 := Exec(s, MarkSucceeded(t));
    assert HasActiveLease(s1, t) <==> HasActiveLease(s, t);
    GrantedIffFree(s1, t, agent);
    var s2 := Exec(s1, Claim(t, agent));
    LatestRunAppend(s1.runs, Run(t, agent, RunRunning), t);
    ViewAfter(s2, t, RunSucceeded, t);
  }
}
