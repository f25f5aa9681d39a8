/** The tables the claim and finalization protocol works on, and every SQL statement or
    transaction that writes them, each as one atomic step. */
module Store {
  import Emissions

  datatype StatusV1 = NotPicked | InProgress | Complete | FailedV1
  datatype StatusV2 = Queued | Claimed | Running | Succeeded | Failed | NeedsReview | Cancelled
  datatype RunStatus = RunRunning | RunSucceeded | RunFailed | RunCancelled

  /** A task row. `kind` is the upper-cased type column; `planner` says that the tags hold
      "planner". */
  datatype Task = Task(
    project: string, v1: StatusV1, v2: StatusV2, kind: string, priority: int, planner: bool,
    needsApproval: bool, approved: bool, updatedAt: nat)

  datatype Lease = Lease(id: nat, task: nat, agent: string, expires: nat)

  datatype Run = Run(task: nat, agent: string, status: RunStatus)

  /** `runs` is in insertion order. Lease rows may be expired; `now` is the clock. */
  datatype Store = Store(
    tasks: map<nat, Task>, nextTask: nat, leases: set<Lease>, nextLease: nat, runs: seq<Run>,
    emissions: Emissions.Rows, window: nat, now: nat)

  const LEASE_TTL: nat := 900
  const PLANNER_KIND := "idle_planner"
  const PLANNER_PRIORITY := 100

  predicate OpenV1(v1: StatusV1) {
    v1 == NotPicked || v1 == InProgress
  }

  predicate TerminalV2(v2: StatusV2) {
    v2 == Succeeded || v2 == Failed || v2 == Cancelled
  }

  predicate TerminalRun(r: RunStatus) {
    r != RunRunning
  }

  /** The task exists and its v1 column is one of the two final values. */
  predicate Closed(s: Store, t: nat) {
    t in s.tasks && !OpenV1(s.tasks[t].v1)
  }

  predicate Active(s: Store, l: Lease) {
    l in s.leases && l.expires > s.now
  }

  predicate HasActiveLease(s: Store, t: nat) {
    exists l :: l in s.leases && l.task == t && l.expires > s.now
  }

  /** The index of the last run of `t` among the first `n` runs, or -1. */
  function LatestRun(runs: seq<Run>, t: nat): (r: int)
    ensures -1 <= r < |runs| && (r >= 0 ==> runs[r].task == t)
    ensures forall k :: r < k < |runs| ==> runs[k].task != t
  {
    if runs == [] then -1
    else if runs[|runs| - 1].task == t then |runs| - 1
    else LatestRun(runs[..|runs| - 1], t)
  }

  // ----- statements -----

  datatype Stmt =
    | Insert(project: string, kind: string, priority: int, planner: bool, needsApproval: bool)
    | Claim(task: nat, agent: string)
    | CreateLease(task: nat, agent: string)
    | MarkSucceeded(task: nat)
    | MarkFailed(task: nat)
    | MarkCancelled(task: nat)
    | UpdateRun(run: nat, status: RunStatus)
    | DeleteLease(id: nat)
    | Heartbeat(id: nat)
    | WriteV1(task: nat, inProgress: bool)
    | Requeue(task: nat)
    | ExpireLeases
    | Patch(task: nat, word: PatchStatus)
    | Approve(task: nat, ok: bool)
    | SpawnPlanner(project: string)
    | SweepEmissions(maxAge: nat)
    | Tick(seconds: nat)

  /** The status words a PATCH accepts: three of the v1 names, and all v2 names. */
  datatype PatchStatus = WordV1(v1: StatusV1) | WordV2(v2: StatusV2)

  function V1ToV2(v1: StatusV1): StatusV2 {
    match v1
    case NotPicked => Queued
    case InProgress => Running
    case Complete => Succeeded
    case FailedV1 => Queued
  }

  function V2ToV1(v2: StatusV2): StatusV1 {
    match v2
    case Queued => NotPicked
    case Claimed => InProgress
    case Running => InProgress
    case Succeeded => Complete
    case Failed => Complete
    case NeedsReview => Complete
    case Cancelled => Complete
  }

  function SetStatus(s: Store, t: nat, v1: StatusV1, v2: StatusV2): Store
    requires t in s.tasks
  {
    s.(tasks := s.tasks[t := s.tasks[t].(v1 := v1, v2 := v2, updatedAt := s.now)])
  }

  /** The lease rows of `t` that have expired are deleted first; any row that is left makes the
      unique index on the task refuse the new one. */
  function LeaseRows(s: Store, t: nat): set<Lease> {
    set l | l in s.leases && !(l.task == t && l.expires <= s.now)
  }

  predicate LeaseGranted(s: Store, t: nat) {
    forall l :: l in LeaseRows(s, t) ==> l.task != t
  }

  function AddLease(s: Store, t: nat, agent: string): Store {
    s.(leases := LeaseRows(s, t) + {Lease(s.nextLease, t, agent, s.now + LEASE_TTL)}, nextLease := s.nextLease + 1)
  }

  /** Claim by id: lease, status and run in one transaction. The caller has looked the task up. */
  function ClaimTx(s: Store, t: nat, agent: string): Store {
    if t in s.tasks && LeaseGranted(s, t) then
      var s1 := AddLease(s, t, agent);
      var s2 := SetStatus(s1, t, InProgress, Claimed);
      s2.(runs := s2.runs + [Run(t, agent, RunRunning)])
    else s
  }

  predicate Granted(s: Store, st: Stmt) {
    st.Claim? && st.task in s.tasks && LeaseGranted(s, st.task)
  }

  predicate CanSucceed(s: Store, t: nat) {
    t in s.tasks && s.tasks[t].v1 != Complete && s.tasks[t].v1 != FailedV1 && s.tasks[t].v2 != Cancelled
  }

  /** The background job: expired leases go, and tasks in progress under one are offered again.
      Only the v1 column is written. */
  function ExpireTx(s: Store): Store {
    s.(tasks := map t | t in s.tasks ::
         if s.tasks[t].v1 == InProgress && (exists l :: l in s.leases && l.task == t && l.expires <= s.now)
         then s.tasks[t].(v1 := NotPicked) else s.tasks[t],
       leases := set l | l in s.leases && l.expires > s.now)
  }

  function ExtendTx(s: Store, id: nat): Store {
    s.(leases := set l | l in s.leases ::
         if l.id == id && l.expires > s.now then l.(expires := l.expires + LEASE_TTL) else l)
  }

  predicate OpenPlanner(s: Store, project: string, t: nat) {
    t in s.tasks && s.tasks[t].project == project && s.tasks[t].planner && OpenV1(s.tasks[t].v1)
  }

  predicate CanSpawn(s: Store, project: string) {
    && s.window > 0
    && Emissions.KeyAt(project, PLANNER_KIND, s.now, s.window) !in s.emissions
    && forall t :: t in s.tasks ==> !OpenPlanner(s, project, t)
  }

  const PLANNER_TYPE := "PLAN"

  function PlannerTask(project: string, now: nat): Task {
    Task(project, NotPicked, Queued, PLANNER_TYPE, PLANNER_PRIORITY, true, false, false, now)
  }

  /** The emission row and the planner task, or, after the caller's rollback, nothing. */
  function SpawnTx(s: Store, project: string): Store {
    if CanSpawn(s, project) then
      s.(emissions := Emissions.Insert(s.emissions, Emissions.KeyAt(project, PLANNER_KIND, s.now, s.window), s.now),
         tasks := s.tasks[s.nextTask := PlannerTask(project, s.now)], nextTask := s.nextTask + 1)
    else s
  }

  function PatchTx(s: Store, t: nat, w: PatchStatus): Store {
    if t !in s.tasks then s
    else match w
      case WordV1(v1) => if v1 == FailedV1 then s else SetStatus(s, t, v1, V1ToV2(v1))
      case WordV2(v2) => SetStatus(s, t, V2ToV1(v2), v2)
  }

  function Exec(s: Store, st: Stmt): Store {
    match st
    case Insert(project, kind, priority, planner, needsApproval) =>
      s.(tasks := s.tasks[s.nextTask :=
           Task(project, NotPicked, Queued, kind, priority, planner, needsApproval, false, s.now)],
         nextTask := s.nextTask + 1)
    case Claim(t, agent) => ClaimTx(s, t, agent)
    case CreateLease(t, agent) => if LeaseGranted(s, t) then AddLease(s, t, agent) else s
    case MarkSucceeded(t) => if CanSucceed(s, t) then SetStatus(s, t, Complete, Succeeded) else s
    case MarkFailed(t) =>
      if t in s.tasks && OpenV1(s.tasks[t].v1) then SetStatus(s, t, FailedV1, Failed) else s
    case MarkCancelled(t) =>
      if t in s.tasks && s.tasks[t].v1 != Complete then SetStatus(s, t, Complete, Cancelled) else s
    case UpdateRun(r, status) =>
      if r < |s.runs| then s.(runs := s.runs[r := s.runs[r].(status := status)]) else s
    case DeleteLease(id) => s.(leases := set l | l in s.leases && l.id != id)
    case Heartbeat(id) => ExtendTx(s, id)
    case WriteV1(t, inProgress) =>
      if t !in s.tasks then s
      else if inProgress then SetStatus(s, t, InProgress, Claimed)
      else SetStatus(s, t, NotPicked, Queued)
    case Requeue(t) =>
      if t in s.tasks && (s.tasks[t].v2 == Claimed || s.tasks[t].v2 == Running)
      then SetStatus(s, t, NotPicked, Queued) else s
    case ExpireLeases => ExpireTx(s)
    case Patch(t, w) => PatchTx(s, t, w)
    case Approve(t, ok) =>
      if t in s.tasks then s.(tasks := s.tasks[t := s.tasks[t].(approved := ok, updatedAt := s.now)]) else s
    case SpawnPlanner(project) => SpawnTx(s, project)
    case SweepEmissions(maxAge) => s.(emissions := Emissions.Sweep(s.emissions, s.now, maxAge))
    case Tick(d) => s.(now := s.now + d)
  }

  /** The store after a run of statements; any interleaving of any number of callers is one. */
  function ExecAll(s: Store, h: seq<Stmt>): Store {
    if h == [] then s else Exec(ExecAll(s, h[..|h| - 1]), h[|h| - 1])
  }

  function Empty(window: nat, now: nat): Store {
    Store(map[], 1, {}, 0, [], map[], window, now)
  }
}
