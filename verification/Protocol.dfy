/** What holds after every run of statements, whatever the interleaving. */
module Protocol {
  import opened Store
  import Emissions

  // ----- leases -----

  /** The unique index on the task, and fresh identifiers. */
  ghost predicate LeasesOk(s: Store) {
    && (forall l :: l in s.leases ==> l.id < s.nextLease)
    && (forall l, m :: l in s.leases && m in s.leases && l.id == m.id ==> l == m)
    && (forall l, m :: l in s.leases && m in s.leases && l.task == m.task ==> l == m)
  }

  lemma LeasesOkHeartbeat(s: Store, id: nat)
    requires LeasesOk(s)
    ensures LeasesOk(ExtendTx(s, id))
  {
    var s' := ExtendTx(s, id);
    forall l | l in s'.leases ensures l.id < s'.nextLease {
      var l0 :| l0 in s.leases && l == if l0.id == id && l0.expires > s.now then l0.(expires := l0.expires + LEASE_TTL) else l0;
    }
    forall l, m | l in s'.leases && m in s'.leases && (l.id == m.id || l.task == m.task) ensures l == m {
      var l0 := Source(s, Heartbeat(id), l);
      var m0 := Source(s, Heartbeat(id), m);
    }
  }

  lemma LeasesOkAdd(s: Store, t: nat, agent: string)
    requires LeasesOk(s) && LeaseGranted(s, t)
    ensures LeasesOk(AddLease(s, t, agent))
  {
  }

  lemma LeasesOkStep(s: Store, st: Stmt)
    requires LeasesOk(s)
    ensures LeasesOk(Exec(s, st))
  {
    match st {
      case Heartbeat(id) => LeasesOkHeartbeat(s, id);
      case Claim(t, agent) => if LeaseGranted(s, t) { LeasesOkAdd(s, t, agent); }
      case CreateLease(t, agent) => if LeaseGranted(s, t) { LeasesOkAdd(s, t, agent); }
      case _ => assert Exec(s, st).leases <= s.leases && Exec(s, st).nextLease == s.nextLease;
    }
  }

  /** A lease row that is not new is an old row: same lease, same task, same agent, and no row
      that has expired comes back to life. */
  lemma Source(s: Store, st: Stmt, l: Lease) returns (l0: Lease)
    requires l in Exec(s, st).leases && l.id != s.nextLease
    ensures l0 in s.leases && l0.id == l.id && l0.task == l.task && l0.agent == l.agent
    ensures l0.expires <= l.expires && (l0.expires != l.expires ==> l0.expires > s.now)
  {
    match st {
      case Heartbeat(id) =>
        l0 :| l0 in s.leases && l == (if l0.id == id && l0.expires > s.now then l0.(expires := l0.expires + LEASE_TTL) else l0);
      case _ => l0 := l;
    }
  }

  lemma {:induction false} LeasesOkAlways(s: Store, h: seq<Stmt>)
    requires LeasesOk(s)
    ensures LeasesOk(ExecAll(s, h))
    decreases |h|
  {
    if h != [] {
      LeasesOkAlways(s, h[..|h| - 1]);
      LeasesOkStep(ExecAll(s, h[..|h| - 1]), h[|h| - 1]);
    }
  }

  /** At any time a task has at most one active lease. */
  lemma OneActiveLease(s: Store, h: seq<Stmt>, l: Lease, m: Lease)
    requires LeasesOk(s)
    requires Active(ExecAll(s, h), l) && Active(ExecAll(s, h), m) && l.task == m.task
    ensures l == m
  {
    LeasesOkAlways(s, h);
  }

  /** A claim is granted if and only if nobody holds the task. */
  lemma GrantedIffFree(s: Store, t: nat, agent: string)
    ensures Granted(s, Claim(t, agent)) <==> t in s.tasks && !HasActiveLease(s, t)
    ensures Granted(s, Claim(t, agent)) ==>
              var s' := Exec(s, Claim(t, agent));
              Active(s', Lease(s.nextLease, t, agent, s.now + LEASE_TTL))
  {
    if HasActiveLease(s, t) {
      var l :| l in s.leases && l.task == t && l.expires > s.now;
      assert l in LeaseRows(s, t);
    }
  }

  /** What a granted claim leaves: the task in progress and claimed, an active lease for fifteen
      minutes in place of the expired ones, and a running run. A refused claim changes nothing. */
  lemma ClaimEffect(s: Store, t: nat, agent: string)
    ensures var s' := Exec(s, Claim(t, agent));
            if t in s.tasks && !HasActiveLease(s, t)
            then && s'.tasks == s.tasks[t := s.tasks[t].(v1 := InProgress, v2 := Claimed, updatedAt := s.now)]
                 && s'.runs == s.runs + [Run(t, agent, RunRunning)]
                 && (forall l :: l in s'.leases <==>
                       l == Lease(s.nextLease, t, agent, s.now + 900) || (l in s.leases && l.task != t))
            else s' == s
  {
    GrantedIffFree(s, t, agent);
  }

  /** A heartbeat adds fifteen minutes to its lease while that is active; all other leases stay as
      they were, and none comes or goes. */
  lemma HeartbeatEffect(s: Store, id: nat, l: Lease)
    requires LeasesOk(s) && l in s.leases
    ensures var s' := Exec(s, Heartbeat(id));
            && s' == s.(leases := s'.leases)
            && (if l.id == id && l.expires > s.now then l.(expires := l.expires + 900) else l) in s'.leases
            && forall m :: m in s'.leases ==> (exists l0 :: l0 in s.leases && l0.id == m.id) && (m.id == l.id ==> m.task == l.task)
    ensures LeasesOk(Exec(s, Heartbeat(id)))
  {
    LeasesOkHeartbeat(s, id);
    forall m | m in ExtendTx(s, id).leases ensures exists l0 :: l0 in s.leases && l0.id == m.id && l0.task == m.task {
      var l0 :| l0 in s.leases && m == if l0.id == id && l0.expires > s.now then l0.(expires := l0.expires + LEASE_TTL) else l0;
      assert l0.id == m.id;
    }
  }

  /** What a PATCH makes of the two columns: a v1 word keeps to v1 and takes the v2 status that goes
      with it, FAILED aside, which it refuses; a v2 word takes the v1 status that goes with it. */
  lemma PatchEffect(s: Store, t: nat, w: PatchStatus)
    requires t in s.tasks
    ensures var v := Exec(s, Patch(t, w)).tasks;
            var v1 := if w.WordV1? then w.v1
                      else if w.v2 == Queued then NotPicked
                      else if w.v2 in {Claimed, Running} then InProgress else Complete;
            var v2 := if w.WordV2? then w.v2
                      else if w.v1 == NotPicked then Queued
                      else if w.v1 == InProgress then Running else Succeeded;
            v == if w == WordV1(FailedV1) then s.tasks else s.tasks[t := s.tasks[t].(v1 := v1, v2 := v2, updatedAt := s.now)]
  {
    if w.WordV2? {
      assert V2ToV1(w.v2) == if w.v2 == Queued then NotPicked else if w.v2 in {Claimed, Running} then InProgress else Complete;
    }
  }

  /** The store before step `i` of a run. */
  function At(s: Store, h: seq<Stmt>, i: nat): Store
    requires i <= |h|
  {
    ExecAll(s, h[..i])
  }

  lemma AtNext(s: Store, h: seq<Stmt>, i: nat)
    requires i < |h|
    ensures At(s, h, i + 1) == Exec(At(s, h, i), h[i])
  {
    assert h[..i + 1][..i] == h[..i];
  }

  lemma {:induction false} NextLeaseGrows(s: Store, h: seq<Stmt>, i: nat, j: nat)
    requires i <= j <= |h|
    ensures At(s, h, i).nextLease <= At(s, h, j).nextLease
    decreases j
  {
    if i < j {
      NextLeaseGrows(s, h, i, j - 1);
      AtNext(s, h, j - 1);
    }
  }

  lemma FreshRow(s: Store, st: Stmt, l: Lease)
    requires LeasesOk(s) && Granted(s, st) && l in Exec(s, st).leases && l.id == s.nextLease
    ensures l.task == st.task
  {
  }

  /** A row keeps its task for ever. */
  lemma {:induction false} RowKeepsTask(s: Store, h: seq<Stmt>, i: nat, j: nat, l: Lease)
    requires LeasesOk(s) && i < j <= |h| && Granted(At(s, h, i), h[i])
    requires l in At(s, h, j).leases && l.id == At(s, h, i).nextLease
    ensures l.task == h[i].task
    decreases j
  {
    if i + 1 == j {
      AtNext(s, h, i);
      FreshRow(At(s, h, i), h[i], l) by { LeasesOkAlways(s, h[..i]); }
    } else {
      AtNext(s, h, j - 1);
      NextLeaseGrows(s, h, i + 1, j - 1);
      AtNext(s, h, i);
      var l0 := Source(At(s, h, j - 1), h[j - 1], l);
      RowKeepsTask(s, h, i, j - 1, l0);
    }
  }

  /** No task is handed to a second agent while the first one's lease is active: when a second
      claim of the task is granted, the lease of the first has been given up or has expired. */
  lemma GrantsExclude(s: Store, h: seq<Stmt>, i: nat, j: nat)
    requires LeasesOk(s) && i < j < |h|
    requires Granted(At(s, h, i), h[i]) && Granted(At(s, h, j), h[j]) && h[i].task == h[j].task
    ensures forall l :: Active(At(s, h, j), l) ==> l.id != At(s, h, i).nextLease
  {
    GrantedIffFree(At(s, h, j), h[j].task, h[j].agent);
    forall l | Active(At(s, h, j), l) && l.id == At(s, h, i).nextLease ensures false {
      RowKeepsTask(s, h, i, j, l);
    }
  }

  // ----- runs -----

  function CountRuns(runs: seq<Run>, t: nat): nat {
    if runs == [] then 0
    else CountRuns(runs[..|runs| - 1], t) + if runs[|runs| - 1].task == t then 1 else 0
  }

  lemma {:induction false} CountRunsUpdate(runs: seq<Run>, r: nat, status: RunStatus, t: nat)
    requires r < |runs|
    ensures CountRuns(runs[r := runs[r].(status := status)], t) == CountRuns(runs, t)
    decreases |runs|
  {
    var n := |runs| - 1;
    var u := runs[r := runs[r].(status := status)];
    if r == n {
      assert u[..n] == runs[..n];
    } else {
      CountRunsUpdate(runs[..n], r, status, t);
      assert u[..n] == runs[..n][r := runs[r].(status := status)];
    }
  }

  /** The granted claims of `t` in a run. */
  function Grants(s: Store, h: seq<Stmt>, t: nat): nat {
    if h == [] then 0
    else Grants(s, h[..|h| - 1], t) +
         if h[|h| - 1].Claim? && h[|h| - 1].task == t && Granted(ExecAll(s, h[..|h| - 1]), h[|h| - 1]) then 1 else 0
  }

  lemma CountRunsStep(s: Store, st: Stmt, t: nat)
    ensures CountRuns(Exec(s, st).runs, t)
         == CountRuns(s.runs, t) + if st.Claim? && st.task == t && Granted(s, st) then 1 else 0
  {
    if st.Claim? && Granted(s, st) {
      var r := Run(st.task, st.agent, RunRunning);
      assert Exec(s, st).runs == s.runs + [r] && (s.runs + [r])[..|s.runs|] == s.runs;
    } else if st.UpdateRun? && st.run < |s.runs| {
      CountRunsUpdate(s.runs, st.run, st.status, t);
    } else {
      assert Exec(s, st).runs == s.runs;
    }
  }

  /** Every task has exactly one run per granted claim. */
  lemma {:induction false} RunsAreGrants(s: Store, h: seq<Stmt>, t: nat)
    ensures CountRuns(ExecAll(s, h).runs, t) == CountRuns(s.runs, t) + Grants(s, h, t)
    decreases |h|
  {
    if h != [] {
      RunsAreGrants(s, h[..|h| - 1], t);
      CountRunsStep(ExecAll(s, h[..|h| - 1]), h[|h| - 1], t);
    }
  }

  /** Unless leases are created outside of a claim, whoever has a lease row for a task is the
      agent of the task's latest run. */
  ghost predicate HoldersOk(s: Store) {
    forall l :: l in s.leases ==> HeldByLatest(s.runs, l)
  }

  lemma LatestRunAppend(runs: seq<Run>, r: Run, t: nat)
    ensures LatestRun(runs + [r], t) == if r.task == t then |runs| else LatestRun(runs, t)
  {
    assert (runs + [r])[..|runs|] == runs;
  }

  lemma LatestRunIs(runs: seq<Run>, t: nat, r: nat)
    requires r < |runs| && runs[r].task == t && forall k :: r < k < |runs| ==> runs[k].task != t
    ensures LatestRun(runs, t) == r
  {
  }

  lemma LatestRunUpdate(runs: seq<Run>, r: nat, status: RunStatus, t: nat)
    requires r < |runs|
    ensures LatestRun(runs[r := runs[r].(status := status)], t) == LatestRun(runs, t)
  {
    var u := runs[r := runs[r].(status := status)];
    assert forall k :: 0 <= k < |runs| ==> u[k].task == runs[k].task;
    var k := LatestRun(runs, t);
    assert k >= 0 ==> u[k].task == t;
    if k >= 0 {
      LatestRunIs(u, t, k);
    }
  }

  ghost predicate HeldByLatest(runs: seq<Run>, l: Lease) {
    LatestRun(runs, l.task) >= 0 && runs[LatestRun(runs, l.task)].agent == l.agent
  }

  lemma HoldersOkClaim(s: Store, st: Stmt)
    requires LeasesOk(s) && HoldersOk(s) && st.Claim? && Granted(s, st)
    ensures HoldersOk(Exec(s, st))
  {
    var s', r := Exec(s, st), Run(st.task, st.agent, RunRunning);
    assert s'.runs == s.runs + [r];
    forall l | l in s'.leases ensures HeldByLatest(s'.runs, l) {
      LatestRunAppend(s.runs, r, l.task);
      if l.task != st.task {
        assert l in LeaseRows(s, st.task);
        assert HeldByLatest(s.runs, l);
      } else {
        assert l !in LeaseRows(s, st.task);
      }
    }
  }

  lemma HoldersOkStep(s: Store, st: Stmt)
    requires LeasesOk(s) && HoldersOk(s) && !st.CreateLease?
    ensures HoldersOk(Exec(s, st))
  {
    if st.Claim? && Granted(s, st) {
      HoldersOkClaim(s, st);
    } else {
      var s' := Exec(s, st);
      assert s'.nextLease == s.nextLease;
      LeasesOkStep(s, st);
      forall l | l in s'.leases ensures HeldByLatest(s'.runs, l) {
        var l0 := Source(s, st, l);
        assert HeldByLatest(s.runs, l0);
        if st.UpdateRun? && st.run < |s.runs| {
          LatestRunUpdate(s.runs, st.run, st.status, l.task);
        } else {
          assert s'.runs == s.runs;
        }
      }
    }
  }

  lemma {:induction false} HoldersOkAlways(s: Store, h: seq<Stmt>)
    requires LeasesOk(s) && HoldersOk(s)
    requires forall i :: 0 <= i < |h| ==> !h[i].CreateLease?
    ensures HoldersOk(ExecAll(s, h))
    decreases |h|
  {
    if h != [] {
      var g := h[..|h| - 1];
      HoldersOkAlways(s, g);
      LeasesOkAlways(s, g);
      HoldersOkStep(ExecAll(s, g), h[|h| - 1]);
    }
  }

  // ----- the two status columns -----

  /** Every combination of the two columns that can be stored. */
  predicate CoherentPair(v1: StatusV1, v2: StatusV2) {
    match v1
    case NotPicked => v2 == Queued || v2 == Claimed || v2 == Running
    case InProgress => v2 == Claimed || v2 == Running
    case Complete => v2 == Succeeded || v2 == Cancelled || v2 == Failed || v2 == NeedsReview
    case FailedV1 => v2 == Failed
  }

  ghost predicate Coherent(s: Store) {
    forall t :: t in s.tasks ==> CoherentPair(s.tasks[t].v1, s.tasks[t].v2)
  }

  lemma CoherentStep(s: Store, st: Stmt)
    requires Coherent(s)
    ensures Coherent(Exec(s, st))
  {
  }

  lemma {:induction false} CoherentAlways(s: Store, h: seq<Stmt>)
    requires Coherent(s)
    ensures Coherent(ExecAll(s, h))
    decreases |h|
  {
    if h != [] {
      CoherentAlways(s, h[..|h| - 1]);
      CoherentStep(ExecAll(s, h[..|h| - 1]), h[|h| - 1]);
    }
  }

  /** The guards on the v1 column and the guards on the v2 column agree on what is over, in
      every reachable store, except on a task that a PATCH has sent to NEEDS_REVIEW: that one
      is over for v1 and not for v2. */
  lemma GuardsAgree(s: Store, h: seq<Stmt>, t: nat)
    requires Coherent(s) && t in ExecAll(s, h).tasks
    ensures var task := ExecAll(s, h).tasks[t];
            && (!OpenV1(task.v1) <==> TerminalV2(task.v2) || task.v2 == NeedsReview)
            && (CanSucceed(ExecAll(s, h), t) <==> OpenV1(task.v1))
  {
    CoherentAlways(s, h);
  }

  lemma ExecSnoc(s: Store, g: seq<Stmt>, st: Stmt)
    ensures ExecAll(s, g + [st]) == Exec(ExecAll(s, g), st)
  {
    assert (g + [st])[..|g|] == g;
  }

  const ONE_TASK := [Insert("p", "MODIFY", 50, false, false)]

  lemma OneTask(window: nat)
    ensures ExecAll(Empty(window, 0), ONE_TASK)
         == Empty(window, 0).(tasks := map[1 := Task("p", NotPicked, Queued, "MODIFY", 50, false, false, false, 0)], nextTask := 2)
  {
    assert ONE_TASK == [] + [ONE_TASK[0]];
    ExecSnoc(Empty(window, 0), [], ONE_TASK[0]);
  }

  lemma ExpiryOffersAgain(s: Store, l: Lease)
    requires l in s.leases && l.expires <= s.now && l.task in s.tasks && s.tasks[l.task].v1 == InProgress
    ensures var s' := Exec(s, ExpireLeases);
            l.task in s'.tasks && s'.tasks[l.task].v1 == NotPicked && s'.tasks[l.task].v2 == s.tasks[l.task].v2
  {
  }

  const ONE_CLAIM := ONE_TASK + [Claim(1, "a")]

  lemma OneClaim()
    ensures var s := ExecAll(Empty(300, 0), ONE_CLAIM);
            && 1 in s.tasks && s.tasks[1].v1 == InProgress && s.now == 0 && Lease(0, 1, "a", LEASE_TTL) in s.leases
  {
    OneTask(300);
    ExecSnoc(Empty(300, 0), ONE_TASK, Claim(1, "a"));
  }

  lemma OverdueClaim(v2: StatusV2) returns (h: seq<Stmt>)
    requires v2 == Claimed || v2 == Running
    ensures var s := ExecAll(Empty(300, 0), h);
            && 1 in s.tasks && s.tasks[1].v1 == InProgress && s.tasks[1].v2 == v2
            && s.now == LEASE_TTL && Lease(0, 1, "a", LEASE_TTL) in s.leases
  {
    var patch := Patch(1, WordV2(v2));
    OneClaim();
    ExecSnoc(Empty(300, 0), ONE_CLAIM, patch);
    ExecSnoc(Empty(300, 0), ONE_CLAIM + [patch], Tick(LEASE_TTL));
    h := ONE_CLAIM + [patch] + [Tick(LEASE_TTL)];
  }

  /** A claimed task whose lease has run out, after the background job. */
  lemma ExpiredClaim(v2: StatusV2) returns (h: seq<Stmt>)
    requires v2 == Claimed || v2 == Running
    ensures var s := ExecAll(Empty(300, 0), h); 1 in s.tasks && s.tasks[1].v1 == NotPicked && s.tasks[1].v2 == v2
  {
    h := OverdueClaim(v2);
    ExecSnoc(Empty(300, 0), h, ExpireLeases);
    ExpiryOffersAgain(ExecAll(Empty(300, 0), h), Lease(0, 1, "a", LEASE_TTL));
    h := h + [ExpireLeases];
  }

  /** No pair is listed in vain: each one is reached from an empty store. */
  lemma EveryPairIsReached(v1: StatusV1, v2: StatusV2) returns (h: seq<Stmt>)
    requires CoherentPair(v1, v2)
    ensures var s := ExecAll(Empty(300, 0), h); 1 in s.tasks && s.tasks[1].v1 == v1 && s.tasks[1].v2 == v2
  {
    if v1 == NotPicked && v2 != Queued {
      h := ExpiredClaim(v2);
    } else {
      var st := if v1 == FailedV1 then MarkFailed(1) else Patch(1, WordV2(v2));
      h := ONE_TASK + [st];
      OneTask(300);
      ExecSnoc(Empty(300, 0), ONE_TASK, st);
    }
  }

  // ----- leaving a terminal status -----

  predicate Reopens(st: Stmt, t: nat) {
    (st.Claim? && st.task == t) || (st.WriteV1? && st.task == t) || (st.Patch? && st.task == t)
  }

  /** A closed task is reopened only by a claim by id, a non-terminal v1 write, or a PATCH. */
  lemma OnlyThreeReopen(s: Store, st: Stmt, t: nat)
    requires Coherent(s) && Closed(s, t) && t < s.nextTask
    ensures !Closed(Exec(s, st), t) ==> Reopens(st, t)
  {
    assert CoherentPair(s.tasks[t].v1, s.tasks[t].v2);
  }

  predicate Completes(s: Store, st: Stmt, t: nat) {
    st.MarkSucceeded? && st.task == t && CanSucceed(s, t)
  }

  function Completions(s: Store, h: seq<Stmt>, t: nat): nat {
    if h == [] then 0
    else Completions(s, h[..|h| - 1], t) + if Completes(ExecAll(s, h[..|h| - 1]), h[|h| - 1], t) then 1 else 0
  }

  function Reopenings(s: Store, h: seq<Stmt>, t: nat): nat {
    if h == [] then 0
    else
      var b := ExecAll(s, h[..|h| - 1]);
      Reopenings(s, h[..|h| - 1], t) + if Closed(b, t) && !Closed(Exec(b, h[|h| - 1]), t) then 1 else 0
  }

  ghost predicate IdsOk(s: Store) {
    forall t :: t in s.tasks ==> t < s.nextTask
  }

  lemma {:induction false} IdsOkAlways(s: Store, h: seq<Stmt>)
    requires IdsOk(s)
    ensures IdsOk(ExecAll(s, h))
    decreases |h|
  {
    if h != [] {
      IdsOkAlways(s, h[..|h| - 1]);
    }
  }

  /** However many agents complete a task, successful completions number at most the
      reopenings of the task, plus one; and at most the reopenings while it stands open again. */
  lemma {:induction false} CompletionsAreBounded(s: Store, h: seq<Stmt>, t: nat)
    requires Coherent(s) && IdsOk(s) && !Closed(s, t)
    ensures Completions(s, h, t) <= Reopenings(s, h, t) + if Closed(ExecAll(s, h), t) then 1 else 0
    decreases |h|
  {
    if h != [] {
      CompletionsAreBounded(s, h[..|h| - 1], t);
    }
  }

  // ----- idle planners -----

  ghost predicate OnePlanner(s: Store) {
    forall p, t, u :: OpenPlanner(s, p, t) && OpenPlanner(s, p, u) ==> t == u
  }

  /** The step does not create a planner by hand and does not reopen a closed one. */
  ghost predicate NoStrayPlanner(s: Store, st: Stmt) {
    && (st.Insert? ==> !st.planner)
    && (forall t :: Closed(s, t) && s.tasks[t].planner && Reopens(st, t) ==> Closed(Exec(s, st), t))
  }

  lemma OnePlannerStep(s: Store, st: Stmt)
    requires OnePlanner(s) && IdsOk(s) && Coherent(s) && NoStrayPlanner(s, st)
    ensures OnePlanner(Exec(s, st))
  {
    var s' := Exec(s, st);
    forall p, t, u | OpenPlanner(s', p, t) && OpenPlanner(s', p, u) ensures t == u {
      forall v | OpenPlanner(s', p, v) ensures OpenPlanner(s, p, v) || (v == s.nextTask && st.SpawnPlanner?) {
        if v in s.tasks && !OpenPlanner(s, p, v) {
          assert s.tasks[v].planner && s.tasks[v].project == p;
          OnlyThreeReopen(s, st, v);
        }
      }
    }
  }

  ghost predicate NoStrayPlanners(s: Store, h: seq<Stmt>) {
    forall i :: 0 <= i < |h| ==> NoStrayPlanner(At(s, h, i), h[i])
  }

  /** In runs where planners come from spawning only and closed ones stay closed, a project
      never has two open planners. */
  lemma {:induction false} OnePlannerAlways(s: Store, h: seq<Stmt>)
    requires OnePlanner(s) && IdsOk(s) && Coherent(s) && NoStrayPlanners(s, h)
    ensures OnePlanner(ExecAll(s, h))
    decreases |h|
  {
    if h != [] {
      var g := h[..|h| - 1];
      forall i | 0 <= i < |g| ensures NoStrayPlanner(At(s, g, i), g[i]) {
        assert g[..i] == h[..i];
        assert NoStrayPlanner(At(s, h, i), h[i]);
      }
      OnePlannerAlways(s, g);
      IdsOkAlways(s, g);
      CoherentAlways(s, g);
      assert NoStrayPlanner(At(s, h, |h| - 1), h[|h| - 1]);
      OnePlannerStep(ExecAll(s, g), h[|h| - 1]);
    }
  }

  /** Spawning is all or nothing: either the window's emission row and one fresh planner task
      appear together, or the store is unchanged. */
  lemma SpawnAllOrNothing(s: Store, project: string)
    requires IdsOk(s) && s.window > 0
    ensures var s' := Exec(s, SpawnPlanner(project));
            var k := Emissions.KeyAt(project, PLANNER_KIND, s.now, s.window);
            if k !in s.emissions && !exists t :: OpenPlanner(s, project, t)
            then s'.tasks.Keys == s.tasks.Keys + {s.nextTask} && OpenPlanner(s', project, s.nextTask)
                 && s'.emissions == s.emissions[k := s.now] && s'.leases == s.leases && s'.runs == s.runs
                 && forall t :: t in s.tasks ==> s'.tasks[t] == s.tasks[t]
            else s' == s
  {
    assert CanSpawn(s, project) <==> Emissions.KeyAt(project, PLANNER_KIND, s.now, s.window) !in s.emissions
                                     && !exists t :: OpenPlanner(s, project, t);
  }
}
