/** Claim-next as a scheduler: the query that selects a task, the order it induces, and what
    repeated calls hand out. */
module Scheduler {
  import opened Options
  import opened Store
  import opened Protocol

  /** A task the query may return: open in its v1 column, approved if it must be, and not under
      an active lease. Dependencies play no part. */
  predicate Claimable(s: Store, project: string, t: nat) {
    && t in s.tasks && s.tasks[t].project == project && OpenV1(s.tasks[t].v1)
    && (!s.tasks[t].needsApproval || s.tasks[t].approved)
    && !HasActiveLease(s, t)
  }

  function StatusBucket(task: Task): nat {
    if task.v1 == NotPicked then 0 else 1
  }

  /** `caps` holds the upper-cased capabilities of the agent; without any there is one bucket. */
  function CapBucket(task: Task, caps: set<string>): nat {
    if caps == {} || task.kind in caps then 0 else 1
  }

  /** The ORDER BY clause, on rows `t` and `u`. */
  predicate Before(s: Store, caps: set<string>, t: nat, u: nat) {
    t in s.tasks && u in s.tasks && RowBefore(s.tasks[t], s.tasks[u], caps, t, u)
  }

  predicate RowBefore(a: Task, b: Task, caps: set<string>, t: nat, u: nat) {
    if StatusBucket(a) != StatusBucket(b) then StatusBucket(a) < StatusBucket(b)
    else if CapBucket(a, caps) != CapBucket(b, caps) then CapBucket(a, caps) < CapBucket(b, caps)
    else if a.priority != b.priority then a.priority > b.priority
    else t < u
  }

  /** The first row below `n` in that order: one pass over the table. */
  function Select(s: Store, project: string, caps: set<string>, n: nat): Option<nat> {
    if n == 0 then None
    else
      var best := Select(s, project, caps, n - 1);
      if Claimable(s, project, n - 1) && (best.None? || Before(s, caps, n - 1, best.value))
      then Some(n - 1)
      else best
  }

  function FindNext(s: Store, project: string, caps: set<string>): Option<nat> {
    Select(s, project, caps, s.nextTask)
  }

  lemma {:induction false} SelectIsLeast(s: Store, project: string, caps: set<string>, n: nat, u: nat)
    ensures var r := Select(s, project, caps, n);
            && (r.Some? ==> r.value < n && Claimable(s, project, r.value))
            && (u < n && Claimable(s, project, u) ==>
                  r.Some? && (u == r.value || Before(s, caps, r.value, u)))
    decreases n
  {
    if n > 0 {
      SelectIsLeast(s, project, caps, n - 1, u);
    }
  }

  /** The query returns nothing if and only if nothing is claimable; otherwise it returns the
      one claimable task that comes before all others. */
  lemma FindNextIsLeast(s: Store, project: string, caps: set<string>, t: nat)
    requires IdsOk(s)
    ensures FindNext(s, project, caps) == None <==> forall u :: !Claimable(s, project, u)
    ensures FindNext(s, project, caps) == Some(t) <==>
            && Claimable(s, project, t)
            && forall u :: Claimable(s, project, u) && u != t ==> Before(s, caps, t, u)
  {
    var r := FindNext(s, project, caps);
    forall u | Claimable(s, project, u) ensures r.Some? && (u == r.value || Before(s, caps, r.value, u)) {
      SelectIsLeast(s, project, caps, s.nextTask, u);
    }
    SelectIsLeast(s, project, caps, s.nextTask, t);
  }

  // ----- the query on the columns -----

  /** The row the query may return, column by column. */
  ghost predicate Offered(s: Store, project: string, t: nat) {
    && t in s.tasks && s.tasks[t].project == project
    && (s.tasks[t].v1 == NotPicked || s.tasks[t].v1 == InProgress)
    && (s.tasks[t].needsApproval ==> s.tasks[t].approved)
    && !exists l :: l in s.leases && l.task == t && l.expires > s.now
  }

  /** Among offered rows: NOT_PICKED before IN_PROGRESS, then the kinds the agent is capable of,
      then the higher priority, then the smaller identifier. */
  ghost predicate Preferred(a: Task, b: Task, caps: set<string>, t: nat, u: nat) {
    && (b.v1 == NotPicked ==> a.v1 == NotPicked)
    && (a.v1 == b.v1 ==> b.kind in caps ==> a.kind in caps)
    && (a.v1 == b.v1 && (a.kind in caps <==> b.kind in caps) ==> a.priority >= b.priority)
    && (a.v1 == b.v1 && (a.kind in caps <==> b.kind in caps) && a.priority == b.priority ==> t < u)
  }

  /** The query returns exactly the offered row that is preferred to every other one, and nothing
      if and only if none is offered. */
  lemma FindNextOnColumns(s: Store, project: string, caps: set<string>, t: nat)
    requires IdsOk(s)
    ensures FindNext(s, project, caps) == None <==> forall u :: !Offered(s, project, u)
    ensures FindNext(s, project, caps) == Some(t) <==>
            && Offered(s, project, t)
            && forall u :: Offered(s, project, u) && u != t ==> Preferred(s.tasks[t], s.tasks[u], caps, t, u)
  {
    FindNextIsLeast(s, project, caps, t);
    forall u ensures Offered(s, project, u) <==> Claimable(s, project, u) {
    }
    forall u | Offered(s, project, t) && Offered(s, project, u) && u != t
      ensures Preferred(s.tasks[t], s.tasks[u], caps, t, u) <==> Before(s, caps, t, u)
    {
      PreferredIsBefore(s.tasks[t], s.tasks[u], caps, t, u);
    }
  }

  lemma PreferredIsBefore(a: Task, b: Task, caps: set<string>, t: nat, u: nat)
    requires OpenV1(a.v1) && OpenV1(b.v1) && t != u
    ensures Preferred(a, b, caps, t, u) <==> RowBefore(a, b, caps, t, u)
  {
  }

  // ----- draining -----

  /** `q` lists the claimable tasks of the project, in order. */
  ghost predicate IsQueue(s: Store, project: string, caps: set<string>, q: seq<nat>) {
    && (forall i :: 0 <= i < |q| ==> Claimable(s, project, q[i]))
    && (forall i, j :: 0 <= i < j < |q| ==> Before(s, caps, q[i], q[j]))
    && (forall t :: Claimable(s, project, t) ==> t in q)
  }

  /** Every store has such a list. */
  lemma QueueExists(s: Store, project: string, caps: set<string>) returns (q: seq<nat>)
    requires IdsOk(s)
    ensures IsQueue(s, project, caps, q)
  {
    q := QueueBelow(s, project, caps, s.nextTask);
  }

  lemma {:induction false} QueueBelow(s: Store, project: string, caps: set<string>, n: nat) returns (q: seq<nat>)
    ensures forall i :: 0 <= i < |q| ==> q[i] < n && Claimable(s, project, q[i])
    ensures forall i, j :: 0 <= i < j < |q| ==> Before(s, caps, q[i], q[j])
    ensures forall t: nat :: t < n && Claimable(s, project, t) ==> t in q
    decreases n
  {
    if n == 0 {
      q := [];
    } else {
      q := QueueBelow(s, project, caps, n - 1);
      var t: nat := n - 1;
      if Claimable(s, project, t) {
        var p := q;
        q := InsertInOrder(s, project, caps, p, t);
        forall i | 0 <= i < |q| ensures q[i] < n && Claimable(s, project, q[i]) {
          assert q[i] in q;
        }
      }
    }
  }

  lemma {:induction false} InsertInOrder(s: Store, project: string, caps: set<string>, p: seq<nat>, t: nat) returns (q: seq<nat>)
    requires Claimable(s, project, t) && forall i :: 0 <= i < |p| ==> p[i] != t && Claimable(s, project, p[i])
    requires forall i, j :: 0 <= i < j < |p| ==> Before(s, caps, p[i], p[j])
    ensures forall u :: u in q <==> u == t || u in p
    ensures forall i, j :: 0 <= i < j < |q| ==> Before(s, caps, q[i], q[j])
    decreases |p|
  {
    if p == [] || Before(s, caps, t, p[0]) {
      q := [t] + p;
    } else {
      var rest := InsertInOrder(s, project, caps, p[1..], t);
      q := [p[0]] + rest;
      forall j | 0 <= j < |rest| ensures Before(s, caps, p[0], rest[j]) {
        assert rest[j] in rest;
      }
    }
  }

  /** A call that nothing disturbs, `delay` seconds after the previous one: find, then claim. */
  function Visit(s: Store, project: string, caps: set<string>, agent: string, delay: nat): (Store, Option<nat>) {
    var s1 := Exec(s, Tick(delay));
    match FindNext(s1, project, caps)
    case None => (s1, None)
    case Some(t) => (Exec(s1, Claim(t, agent)), Some(t))
  }

  datatype Caller = Caller(agent: string, delay: nat)

  function Visits(s: Store, project: string, caps: set<string>, callers: seq<Caller>): (Store, seq<Option<nat>>)
    decreases |callers|
  {
    if callers == [] then (s, [])
    else
      var (s1, r) := Visit(s, project, caps, callers[0].agent, callers[0].delay);
      var (s2, rs) := Visits(s1, project, caps, callers[1..]);
      (s2, [r] + rs)
  }

  function TotalDelay(callers: seq<Caller>): nat {
    if callers == [] then 0 else callers[0].delay + TotalDelay(callers[1..])
  }

  /** Every lease that is active now stays so for `d` seconds. */
  ghost predicate LiveFor(s: Store, d: nat) {
    forall l :: l in s.leases && l.expires > s.now ==> l.expires > s.now + d
  }

  lemma TickKeepsQueue(s: Store, project: string, caps: set<string>, q: seq<nat>, d: nat)
    requires IsQueue(s, project, caps, q) && LiveFor(s, d)
    ensures IsQueue(Exec(s, Tick(d)), project, caps, q)
  {
    var s1 := Exec(s, Tick(d));
    forall t ensures HasActiveLease(s1, t) <==> HasActiveLease(s, t) {
      if HasActiveLease(s, t) {
        var l :| l in s.leases && l.task == t && l.expires > s.now;
        assert l in s1.leases && l.expires > s1.now;
      }
    }
    assert forall t :: Claimable(s1, project, t) <==> Claimable(s, project, t);
  }

  lemma TickKeepsLive(s: Store, d: nat, more: nat)
    requires LiveFor(s, d + more)
    ensures LiveFor(Exec(s, Tick(d)), more)
  {
  }

  /** A granted claim takes its task off the list and keeps the others. */
  lemma ClaimPops(s: Store, project: string, caps: set<string>, q: seq<nat>, agent: string)
    requires IsQueue(s, project, caps, q) && q != []
    ensures IsQueue(Exec(s, Claim(q[0], agent)), project, caps, q[1..])
  {
    var t := q[0];
    var s' := Exec(s, Claim(t, agent));
    assert Claimable(s, project, t);
    GrantedIffFree(s, t, agent);
    forall u ensures Claimable(s', project, u) <==> u != t && Claimable(s, project, u) {
      ClaimHolds(s, t, agent, u);
    }
    forall i, j | 0 <= i < j < |q[1..]| ensures Before(s', caps, q[1..][i], q[1..][j]) {
      assert Before(s, caps, q[i + 1], q[j + 1]) && Before(s, caps, t, q[i + 1]) && Before(s, caps, t, q[j + 1]);
    }
  }

  lemma ClaimHolds(s: Store, t: nat, agent: string, u: nat)
    requires t in s.tasks && !HasActiveLease(s, t)
    ensures HasActiveLease(Exec(s, Claim(t, agent)), u) <==> u == t || HasActiveLease(s, u)
  {
    GrantedIffFree(s, t, agent);
    var s' := Exec(s, Claim(t, agent));
    if u != t && HasActiveLease(s, u) {
      var l :| l in s.leases && l.task == u && l.expires > s.now;
      assert l in s'.leases;
    }
  }

  lemma ClaimKeepsLive(s: Store, t: nat, agent: string, d: nat)
    requires LiveFor(s, d) && d < LEASE_TTL
    ensures LiveFor(Exec(s, Claim(t, agent)), d)
  {
  }

  lemma VisitStep(s: Store, project: string, caps: set<string>, q: seq<nat>, c: Caller, more: nat)
    requires IdsOk(s) && IsQueue(s, project, caps, q) && LiveFor(s, c.delay + more) && more < LEASE_TTL
    ensures var (s', r) := Visit(s, project, caps, c.agent, c.delay);
            && r == (if q == [] then None else Some(q[0]))
            && IsQueue(s', project, caps, if q == [] then [] else q[1..])
            && LiveFor(s', more) && IdsOk(s')
  {
    var s1 := Exec(s, Tick(c.delay));
    assert LiveFor(s, c.delay);
    TickKeepsQueue(s, project, caps, q, c.delay);
    TickKeepsLive(s, c.delay, more);
    if q == [] {
      FindNextIsLeast(s1, project, caps, 0);
    } else {
      forall u | Claimable(s1, project, u) && u != q[0] ensures Before(s1, caps, q[0], u) {
        var i :| 0 <= i < |q| && q[i] == u;
      }
      FindNextIsLeast(s1, project, caps, q[0]);
      ClaimPops(s1, project, caps, q, c.agent);
      ClaimKeepsLive(s1, q[0], c.agent, more);
    }
  }

  /** Repeated claim-next with a fixed capability list, while leases stay live, hands out the
      claimable tasks in the order of the list, each exactly once, and then nothing. */
  lemma {:induction false} DrainsInOrder(s: Store, project: string, caps: set<string>, q: seq<nat>, callers: seq<Caller>, k: nat)
    requires IdsOk(s) && IsQueue(s, project, caps, q) && k < |callers|
    requires LiveFor(s, TotalDelay(callers)) && TotalDelay(callers) < LEASE_TTL
    ensures |Visits(s, project, caps, callers).1| == |callers|
    ensures Visits(s, project, caps, callers).1[k] == if k < |q| then Some(q[k]) else None
    decreases |callers|
  {
    VisitsOnePerCaller(s, project, caps, callers);
    var c, more := callers[0], callers[1..];
    VisitStep(s, project, caps, q, c, TotalDelay(more));
    VisitsFirst(s, project, caps, callers);
    if k > 0 {
      var (s1, r) := Visit(s, project, caps, c.agent, c.delay);
      var rest, answers := if q == [] then [] else q[1..], Visits(s1, project, caps, more).1;
      DrainsInOrder(s1, project, caps, rest, more, k - 1);
      assert ([r] + answers)[k] == answers[k - 1];
      assert k < |q| ==> q[k] == rest[k - 1];
    }
  }

  lemma VisitsFirst(s: Store, project: string, caps: set<string>, callers: seq<Caller>)
    requires callers != []
    ensures var (s1, r) := Visit(s, project, caps, callers[0].agent, callers[0].delay);
            Visits(s, project, caps, callers).1 == [r] + Visits(s1, project, caps, callers[1..]).1
  {
  }

  lemma {:induction false} VisitsOnePerCaller(s: Store, project: string, caps: set<string>, callers: seq<Caller>)
    ensures |Visits(s, project, caps, callers).1| == |callers|
    decreases |callers|
  {
    if callers != [] {
      var (s1, r) := Visit(s, project, caps, callers[0].agent, callers[0].delay);
      VisitsOnePerCaller(s1, project, caps, callers[1..]);
    }
  }

  // ----- find and claim as separate steps -----

  /** What the claim of a task found earlier gives, whatever happened in between: the lease is
      granted if and only if nobody holds the task by then, and it is not looked at again
      whether the task is still open. A task that was found open and is claimed closed is
      reopened. */
  lemma StaleFind(s: Store, project: string, caps: set<string>, t: nat, agent: string, between: seq<Stmt>)
    requires IdsOk(s) && Coherent(s) && FindNext(s, project, caps) == Some(t) && t in ExecAll(s, between).tasks
    ensures var s1 := ExecAll(s, between);
            var s2 := Exec(s1, Claim(t, agent));
            && (Granted(s1, Claim(t, agent)) <==> !HasActiveLease(s1, t))
            && (Closed(s1, t) && !Closed(s2, t) <==> Closed(s1, t) && !HasActiveLease(s1, t))
            && (!HasActiveLease(s1, t) ==> s2.tasks[t].v2 == Claimed && HasActiveLease(s2, t))
  {
    GrantedIffFree(ExecAll(s, between), t, agent);
  }

  /** And it happens: a second agent claims and completes the task between the two steps. */
  lemma StaleFindResurrects(s: Store, project: string, caps: set<string>, t: nat, agent: string, other: string)
    requires IdsOk(s) && Coherent(s) && LeasesOk(s) && FindNext(s, project, caps) == Some(t)
    ensures var s1 := ExecAll(s, [Claim(t, other), MarkSucceeded(t), DeleteLease(s.nextLease)]);
            && t in s1.tasks && s1.tasks[t].v2 == Succeeded
            && Exec(s1, Claim(t, agent)).tasks[t].v2 == Claimed
  {
    FindNextIsLeast(s, project, caps, t);
    GrantedIffFree(s, t, other);
    var s1 := ExecAll(s, [Claim(t, other), MarkSucceeded(t), DeleteLease(s.nextLease)]);
    ThreeSteps(s, Claim(t, other), MarkSucceeded(t), DeleteLease(s.nextLease));
    ClaimedAndCompleted(s, t, other);
    GrantedIffFree(s1, t, agent);
  }

  lemma ClaimedAndCompleted(s: Store, t: nat, other: string)
    requires LeasesOk(s) && t in s.tasks && !HasActiveLease(s, t)
    ensures var s1 := Exec(Exec(Exec(s, Claim(t, other)), MarkSucceeded(t)), DeleteLease(s.nextLease));
            t in s1.tasks && s1.tasks[t].v2 == Succeeded && !HasActiveLease(s1, t)
  {
    GrantedIffFree(s, t, other);
    var a := Exec(s, Claim(t, other));
    assert a.leases == LeaseRows(s, t) + {Lease(s.nextLease, t, other, s.now + LEASE_TTL)} && a.now == s.now;
    var b := Exec(a, MarkSucceeded(t));
    assert b.leases == a.leases && b.now == s.now;
    NoLeaseLeft(s, b, t, other);
  }

  lemma NoLeaseLeft(s: Store, b: Store, t: nat, other: string)
    requires LeasesOk(s) && !HasActiveLease(s, t) && b.now == s.now
    requires b.leases == LeaseRows(s, t) + {Lease(s.nextLease, t, other, s.now + LEASE_TTL)}
    ensures !HasActiveLease(Exec(b, DeleteLease(s.nextLease)), t)
  {
    assert Exec(b, DeleteLease(s.nextLease)).leases <= LeaseRows(s, t);
  }

  lemma ThreeSteps(s: Store, a: Stmt, b: Stmt, c: Stmt)
    ensures ExecAll(s, [a, b, c]) == Exec(Exec(Exec(s, a), b), c)
  {
    assert [a, b, c] == [a, b] + [c] && [a, b] == [a] + [b] && [a] == [] + [a];
    ExecSnoc(s, [a, b], c);
    ExecSnoc(s, [a], b);
    ExecSnoc(s, [], a);
  }
}
