/** One request at a time, among the requests of others: the claim-next endpoints and the
    requeueing of stuck tasks. Before every database access of the request other sessions may
    commit any statements, and every access may fail. */
module Sessions {
  import opened Options
  import opened Store
  import opened Protocol
  import opened Scheduler

  datatype Fault = NoFault | Busy | Broken

  /** The history of the database during a request: what others wrote, what the request wrote,
      what its query answered, and an update of its own that found its task no longer claimed or
      running. */
  datatype Entry = Theirs(st: Stmt) | Ours(st: Stmt) | Asked(found: Option<nat>) | Missed(task: nat)

  function Step(s: Store, e: Entry): Store {
    if e.Theirs? || e.Ours? then Exec(s, e.st) else s
  }

  function Replay(s: Store, log: seq<Entry>): Store {
    if log == [] then s else Step(Replay(s, log[..|log| - 1]), log[|log| - 1])
  }

  /** What the request itself did: the tasks it claimed, the planners it spawned, the tasks it put
      back and those it missed, how often its query found nothing, and the last answer as long as
      the request has not written since. */
  datatype Tally = Tally(
    claims: seq<nat>, spawns: nat, requeued: seq<nat>, missed: seq<nat>, empty: nat, found: Option<nat>)

  const NOTHING_YET := Tally([], 0, [], [], 0, None)

  function Count(c: Tally, e: Entry): Tally {
    match e
    case Theirs(_) => c
    case Ours(st) =>
      (match st
       case Claim(t, _) => c.(claims := c.claims + [t], found := None)
       case SpawnPlanner(_) => c.(spawns := c.spawns + 1, found := None)
       case Requeue(t) => c.(requeued := c.requeued + [t], found := None)
       case _ => c)
    case Asked(found) => c.(empty := c.empty + if found.None? then 1 else 0, found := found)
    case Missed(t) => c.(missed := c.missed + [t])
  }

  function TallyOf(log: seq<Entry>): Tally {
    if log == [] then NOTHING_YET else Count(TallyOf(log[..|log| - 1]), log[|log| - 1])
  }

  function TheirPart(log: seq<Entry>): seq<Stmt> {
    if log == [] then []
    else TheirPart(log[..|log| - 1]) + if log[|log| - 1].Theirs? then [log[|log| - 1].st] else []
  }

  /** What the others commit before the accesses `0 .. n`. */
  function Interference(others: nat -> seq<Stmt>, n: nat): seq<Stmt> {
    if n == 0 then [] else Interference(others, n - 1) + others(n - 1)
  }

  /** How many of the accesses `0 .. n` failed. */
  function FaultCount(faults: nat -> Fault, n: nat): nat {
    if n == 0 then 0 else FaultCount(faults, n - 1) + if faults(n - 1) == NoFault then 0 else 1
  }

  function AsTheirs(h: seq<Stmt>): seq<Entry> {
    if h == [] then [] else AsTheirs(h[..|h| - 1]) + [Theirs(h[|h| - 1])]
  }

  predicate Requeueable(s: Store, t: nat) {
    t in s.tasks && (s.tasks[t].v2 == Claimed || s.tasks[t].v2 == Running)
  }

  /** Who asks, on which store, and with which capabilities the query is made; without a query
      when a task is claimed by its identifier. */
  datatype Request = Request(start: Store, project: string, agent: string, query: Option<set<string>>)

  /** The background job: no agent, no query. */
  function Housekeeping(s: Store): Request {
    Request(s, "", "", None)
  }

  /** A write of the request is in force in `s`: a claim is granted to its agent, and it is of the
      task the query has just returned if there is a query; a planner is missing; a task that is put
      back is claimed or running. */
  predicate InForce(q: Request, s: Store, found: Option<nat>, st: Stmt) {
    match st
    case Claim(t, a) => a == q.agent && Granted(s, st) && (q.query.Some? ==> found == Some(t))
    case SpawnPlanner(p) => p == q.project && CanSpawn(s, p)
    case Requeue(t) => Requeueable(s, t)
    case _ => false
  }

  /** The entry is right after the history `log`. */
  ghost predicate Right(q: Request, log: seq<Entry>, e: Entry) {
    var s := Replay(q.start, log);
    match e
    case Theirs(_) => true
    case Ours(st) => InForce(q, s, TallyOf(log).found, st)
    case Asked(found) => q.query.Some? && found == FindNext(s, q.project, q.query.value)
    case Missed(t) => !Requeueable(s, t)
  }

  ghost predicate AllRight(q: Request, log: seq<Entry>)
    decreases |log|
  {
    log == [] || (AllRight(q, log[..|log| - 1]) && Right(q, log[..|log| - 1], log[|log| - 1]))
  }

  lemma Snoc(q: Request, log: seq<Entry>, e: Entry)
    ensures Replay(q.start, log + [e]) == Step(Replay(q.start, log), e)
    ensures TallyOf(log + [e]) == Count(TallyOf(log), e)
    ensures TheirPart(log + [e]) == TheirPart(log) + if e.Theirs? then [e.st] else []
    ensures AllRight(q, log + [e]) <==> AllRight(q, log) && Right(q, log, e)
  {
    assert (log + [e])[..|log|] == log;
  }

  lemma AppendTheirs(log: seq<Entry>, h: seq<Stmt>)
    requires h != []
    ensures log + AsTheirs(h) == log + AsTheirs(h[..|h| - 1]) + [Theirs(h[|h| - 1])]
  {
    Regroup(log, AsTheirs(h[..|h| - 1]), [Theirs(h[|h| - 1])]);
  }

  lemma Regroup(x: seq<Entry>, y: seq<Entry>, z: seq<Entry>)
    ensures x + (y + z) == x + y + z
  {
  }

  /** What others write changes the store, and is their part of the history. */
  lemma {:induction false} TheirsReplayed(s: Store, log: seq<Entry>, h: seq<Stmt>)
    ensures Replay(s, log + AsTheirs(h)) == ExecAll(Replay(s, log), h)
    decreases |h|
  {
    if h == [] {
      assert log + AsTheirs(h) == log;
    } else {
      var g, e := h[..|h| - 1], Theirs(h[|h| - 1]);
      TheirsReplayed(s, log, g);
      AppendTheirs(log, h);
      Snoc(Housekeeping(s), log + AsTheirs(g), e);
    }
  }

  lemma {:induction false} TheirsCounted(log: seq<Entry>, h: seq<Stmt>)
    ensures TallyOf(log + AsTheirs(h)) == TallyOf(log) && TheirPart(log + AsTheirs(h)) == TheirPart(log) + h
    decreases |h|
  {
    if h == [] {
      assert log + AsTheirs(h) == log;
    } else {
      var g, st := h[..|h| - 1], h[|h| - 1];
      TheirsCounted(log, g);
      AppendTheirs(log, h);
      assert (log + AsTheirs(h))[..|log + AsTheirs(g)|] == log + AsTheirs(g);
      assert h == g + [st];
    }
  }

  lemma {:induction false} TheirsRight(q: Request, log: seq<Entry>, h: seq<Stmt>)
    requires AllRight(q, log)
    ensures AllRight(q, log + AsTheirs(h))
    decreases |h|
  {
    if h == [] {
      assert log + AsTheirs(h) == log;
    } else {
      var g, e := h[..|h| - 1], Theirs(h[|h| - 1]);
      TheirsRight(q, log, g);
      AppendTheirs(log, h);
      Snoc(q, log + AsTheirs(g), e);
    }
  }

  lemma TaskStays(s: Store, st: Stmt, t: nat)
    requires t in s.tasks
    ensures t in Exec(s, st).tasks
  {
  }

  lemma {:induction false} TasksStay(s: Store, h: seq<Stmt>, t: nat)
    requires t in s.tasks
    ensures t in ExecAll(s, h).tasks
    decreases |h|
  {
    if h != [] {
      TasksStay(s, h[..|h| - 1], t);
      TaskStays(ExecAll(s, h[..|h| - 1]), h[|h| - 1], t);
    }
  }

  class Session {
    var db: Store
    var accesses: nat
    const others: nat -> seq<Stmt>
    const faults: nat -> Fault
    ghost var log: seq<Entry>
    /** Accesses that failed, and these together with the statements of others. */
    ghost var failed: nat
    ghost var disturbed: nat

    constructor (db: Store, others: nat -> seq<Stmt>, faults: nat -> Fault)
      ensures this.db == db && this.others == others && this.faults == faults && Fresh()
    {
      this.db, this.others, this.faults, accesses, log, failed, disturbed := db, others, faults, 0, [], 0, 0;
    }

    ghost predicate Fresh()
      reads this
    {
      accesses == 0 && log == [] && failed == 0 && disturbed == 0
    }

    /** Nobody else writes, and nothing fails. */
    ghost predicate Quiet() {
      forall i :: others(i) == [] && faults(i) == NoFault
    }

    /** The database is what the history makes of the start, and the history consists of everything
        the others did so far and of what this request did, rightly. */
    ghost predicate Tracks(q: Request)
      reads this
    {
      && db == Replay(q.start, log) && TheirPart(log) == Interference(others, accesses) && AllRight(q, log)
      && IdsOk(db) && failed == FaultCount(faults, accesses) && disturbed == failed + |TheirPart(log)|
    }

    method Access(ghost q: Request) returns (f: Fault)
      requires Tracks(q)
      modifies this
      ensures Tracks(q) && TallyOf(log) == old(TallyOf(log))
      ensures accesses == old(accesses) + 1 && f == faults(old(accesses))
      ensures db == ExecAll(old(db), others(old(accesses))) && old(db).tasks.Keys <= db.tasks.Keys
      ensures failed == old(failed) + if f == NoFault then 0 else 1
      ensures disturbed == old(disturbed) + |others(old(accesses))| + if f == NoFault then 0 else 1
    {
      f := faults(accesses);
      var h := others(accesses);
      TheirsTracked(q, h);
      db := ExecAll(db, h);
      log := log + AsTheirs(h);
      accesses := accesses + 1;
      failed := failed + if f == NoFault then 0 else 1;
      disturbed := disturbed + |h| + if f == NoFault then 0 else 1;
    }

    lemma TheirsTracked(q: Request, h: seq<Stmt>)
      requires Tracks(q)
      ensures ExecAll(db, h) == Replay(q.start, log + AsTheirs(h)) && IdsOk(ExecAll(db, h))
      ensures TallyOf(log + AsTheirs(h)) == TallyOf(log) && TheirPart(log + AsTheirs(h)) == TheirPart(log) + h
      ensures AllRight(q, log + AsTheirs(h)) && db.tasks.Keys <= ExecAll(db, h).tasks.Keys
    {
      TheirsReplayed(q.start, log, h);
      TheirsCounted(log, h);
      TheirsRight(q, log, h);
      IdsOkAlways(db, h);
      forall t | t in db.tasks ensures t in ExecAll(db, h).tasks {
        TasksStay(db, h, t);
      }
    }

    method Write(st: Stmt, ghost q: Request)
      requires Tracks(q) && InForce(q, db, TallyOf(log).found, st)
      modifies `db, `log
      ensures Tracks(q) && db == Exec(old(db), st) && TallyOf(log) == Count(old(TallyOf(log)), Ours(st))
    {
      Snoc(q, log, Ours(st));
      db := Exec(db, st);
      log := log + [Ours(st)];
    }

    /** The query for the next task. */
    method Find(project: string, caps: set<string>, ghost q: Request) returns (f: Fault, found: Option<nat>)
      requires Tracks(q) && project == q.project && q.query == Some(caps)
      modifies this
      ensures Tracks(q) && (f == NoFault ==> found == FindNext(db, project, caps))
      ensures TallyOf(log) == if f == NoFault then Count(old(TallyOf(log)), Asked(found)) else old(TallyOf(log))
      ensures failed == old(failed) + if f == NoFault then 0 else 1
      ensures disturbed >= old(disturbed) + if f == NoFault then 0 else 1
      ensures Quiet() ==> f == NoFault && db == old(db)
    {
      found := None;
      f := Access(q);
      if f == NoFault {
        found := FindNext(db, project, caps);
        Snoc(q, log, Asked(found));
        log := log + [Asked(found)];
      }
    }

    /** Lease, status and run in one transaction, then the task is read again; that read can
        fail although the claim is committed. The claim is refused if and only if the transaction
        fails, and conflicts if and only if somebody holds the task when it begins. */
    method ClaimTaskByID(t: nat, agent: string, ghost q: Request) returns (r: ClaimResult)
      requires Tracks(q) && agent == q.agent && t in db.tasks && (q.query.Some? ==> TallyOf(log).found == Some(t))
      modifies this
      ensures Tracks(q)
      ensures TallyOf(log) == if r.Committed() then Count(old(TallyOf(log)), Ours(Claim(t, agent))) else old(TallyOf(log))
      ensures var s1, f1, f2 := ExecAll(old(db), others(old(accesses))), faults(old(accesses)), faults(old(accesses) + 1);
              && (r.Refused? <==> f1 != NoFault) && (r.Refused? ==> r.e == f1 && db == s1)
              && (r.Conflicting? <==> f1 == NoFault && HasActiveLease(s1, t)) && (r.Conflicting? ==> db == s1)
              && (r.Committed() ==> db == ExecAll(Exec(s1, Claim(t, agent)), others(old(accesses) + 1))
                                    && r == if f2 == NoFault then Done else Unread(f2))
      ensures failed == old(failed) + if r.Refused? || r.Unread? then 1 else 0
      ensures disturbed >= old(disturbed) + if r == Done || old(HasActiveLease(db, t)) then 0 else 1
    {
      var f := Access(q);
      if f != NoFault {
        return Refused(f);
      }
      GrantedIffFree(db, t, agent);
      if !Granted(db, Claim(t, agent)) {
        return Conflicting;
      }
      Write(Claim(t, agent), q);
      f := Access(q);
      r := if f == NoFault then Done else Unread(f);
    }

    /** A planner, unless a policy, a recent one or an open one forbids it. */
    method TrySpawn(project: string, blocked: bool, ghost q: Request) returns (o: Outcome)
      requires Tracks(q) && project == q.project
      modifies this
      ensures Tracks(q) && (o == Planned || o == NotPlanned || o == PlanFailed)
      ensures TallyOf(log) == if o == Planned then Count(old(TallyOf(log)), Ours(SpawnPlanner(project))) else old(TallyOf(log))
      ensures o == NotPlanned ==> blocked || !CanSpawn(db, project)
      ensures failed == old(failed) + if o == PlanFailed then 1 else 0
      ensures disturbed >= old(disturbed)
      ensures Quiet() ==> o == (if blocked || !CanSpawn(old(db), project) then NotPlanned else Planned)
                          && db == if o == Planned then SpawnTx(old(db), project) else old(db)
    {
      var f := Access(q);
      if f != NoFault {
        return PlanFailed;
      }
      if blocked {
        return NotPlanned;
      }
      f := Access(q);
      if f != NoFault {
        return PlanFailed;
      }
      if !CanSpawn(db, project) {
        return NotPlanned;
      }
      Write(SpawnPlanner(project), q);
      o := Planned;
    }

    /** One round of either endpoint: find a task, then claim it; if there is none, a planner is
        tried once. */
    method Attempt(project: string, agent: string, caps: set<string>, blocked: bool, attempted: bool, ghost q: Request)
      returns (o: Outcome)
      requires Tracks(q) && q == Request(q.start, project, agent, Some(caps))
      modifies this
      ensures Tracks(q) && Took(old(TallyOf(log)), o, TallyOf(log))
      ensures failed >= old(failed) + if o.Lost? || o == PlanFailed || (o.Unclaimed? && o.e == Broken) then 1 else 0
      ensures disturbed >= old(disturbed) + if o.Lost? || o.Unclaimed? then 1 else 0
      ensures o == Nothing ==> attempted && FindNext(db, project, caps) == None
      ensures o == Planned || o == NotPlanned || o == PlanFailed ==> !attempted
      ensures o == NotPlanned ==> blocked || !CanSpawn(db, project)
      ensures Quiet() ==> (o, db) == QuietAttempt(old(db), project, agent, caps, blocked, attempted)
    {
      ghost var c := TallyOf(log);
      var f, found := Find(project, caps, q);
      if f != NoFault {
        o := Unclaimed(f);
      } else if found.None? {
        o := Nothing;
        if !attempted {
          o := TrySpawn(project, blocked, q);
        }
        TookNone(c, project, o, TallyOf(log));
      } else {
        FindNextIsLeast(db, project, caps, found.value);
        o := ClaimFound(found.value, agent, q);
        TookSome(c, found, o, TallyOf(log));
      }
    }

    method ClaimFound(t: nat, agent: string, ghost q: Request) returns (o: Outcome)
      requires Tracks(q) && agent == q.agent && t in db.tasks && !HasActiveLease(db, t)
      requires q.query.Some? && TallyOf(log).found == Some(t)
      modifies this
      ensures Tracks(q) && (o == Got(t) || o.Unclaimed? || (o.Lost? && o.task == t))
      ensures Took(old(TallyOf(log)), o, TallyOf(log))
      ensures failed >= old(failed) + if o.Lost? || (o.Unclaimed? && o.e == Broken) then 1 else 0
      ensures disturbed >= old(disturbed) + if o.Got? then 0 else 1
      ensures Quiet() ==> o == Got(t) && db == Exec(old(db), Claim(t, agent))
    {
      var r := ClaimTaskByID(t, agent, q);
      o := match r
        case Done => Got(t)
        case Conflicting => Unclaimed(NoFault)
        case Refused(e) => Unclaimed(e)
        case Unread(e) => Lost(t, e);
    }

    /** The claim-next endpoint. `blocked` is the answer of the policy check. Each task it claims
        is the one its query has just returned. Every attempt but one is paid for by a spawn, a
        fault, or a statement of another session. */
    method ClaimNext(project: string, agent: string, caps: set<string>, blocked: bool)
      returns (response: Response, idleEvents: int, attempts: nat, unread: nat)
      requires IdsOk(db) && Fresh()
      modifies this
      ensures Tracks(Request(old(db), project, agent, Some(caps))) && Served(response, TallyOf(log), unread)
      ensures attempts <= MAX_ATTEMPTS && attempts <= 1 + TallyOf(log).spawns + disturbed && unread <= attempts
      ensures response == Accepted ==>
                TallyOf(log).spawns == 1 && (attempts == MAX_ATTEMPTS || FindNext(db, project, caps) == None)
      ensures response == NoContent ==>
                TallyOf(log).spawns == 0 && TallyOf(log).empty > 0 && (blocked || !CanSpawn(db, project))
      ensures response == TryAgain ==> TallyOf(log).empty == 0 && attempts == MAX_ATTEMPTS <= disturbed
      ensures unread <= failed && (response == InternalError ==> failed > 0)
      ensures idleEvents == 0
      ensures Quiet() ==> (response, db) == Undisturbed(old(db), project, agent, caps, blocked) && attempts <= 2
    {
      ghost var s := db;
      ghost var q := Request(s, project, agent, Some(caps));
      var spawned := false;
      idleEvents, attempts, unread := 0, 0, 0;
      while attempts < MAX_ATTEMPTS
        invariant attempts <= MAX_ATTEMPTS && Tracks(q) && Going(TallyOf(log), spawned, unread)
        invariant attempts <= TallyOf(log).spawns + disturbed && unread <= attempts && unread <= failed && idleEvents == 0
        invariant Quiet() ==> attempts == if spawned then 1 else 0
        invariant Quiet() && !spawned ==> db == s
        invariant Quiet() && spawned ==>
                    !blocked && FindNext(s, project, caps) == None && CanSpawn(s, project) && db == SpawnTx(s, project)
      {
        attempts := attempts + 1;
        var o := Attempt(project, agent, caps, blocked, spawned, q);
        match o {
          case Got(t) =>
            response := Assigned(t);
            return;
          case Unclaimed(e) =>
            if e == Broken {
              response := InternalError;
              return;
            }
          case Lost(_, e) =>
            unread := unread + 1;
            if e == Broken {
              response := InternalError;
              return;
            }
          case Nothing =>
            if !spawned {
              idleEvents := idleEvents + 1;
            }
            response := if spawned then Accepted else NoContent;
            return;
          case Planned =>
            spawned := true;
          case NotPlanned =>
            response := NoContent;
            return;
          case PlanFailed =>
            response := InternalError;
            return;
        }
      }
      response := if spawned then Accepted else TryAgain;
    }

    /** The v1 task endpoint: the same loop with more attempts and no capabilities. A planner that
        was spawned and cannot be claimed is not reported, and neither are faults while spawning. */
    method GetTask(project: string, agent: string, blocked: bool)
      returns (response: Response, attempts: nat, unread: nat)
      requires IdsOk(db) && Fresh()
      modifies this
      ensures Tracks(Request(old(db), project, agent, Some({}))) && Served(response, TallyOf(log), unread)
      ensures attempts <= MAX_CLAIM_ATTEMPTS && attempts <= 1 + TallyOf(log).spawns + disturbed
      ensures response != Accepted
      ensures response == NoContent ==>
                TallyOf(log).empty > 0
                && (if TallyOf(log).spawns == 1 then FindNext(db, project, {}) == None
                    else blocked || !CanSpawn(db, project) || failed > 0)
      ensures response == TryAgain ==> attempts == MAX_CLAIM_ATTEMPTS <= TallyOf(log).spawns + disturbed
      ensures unread <= failed && (response == InternalError ==> failed > 0)
      ensures Quiet() ==> (response, db) == Quietly(Undisturbed(old(db), project, agent, {}, blocked)) && attempts <= 2
    {
      ghost var s := db;
      ghost var q := Request(s, project, agent, Some({}));
      var spawned := false;
      attempts, unread := 0, 0;
      while attempts < MAX_CLAIM_ATTEMPTS
        invariant attempts <= MAX_CLAIM_ATTEMPTS && Tracks(q) && Going(TallyOf(log), spawned, unread)
        invariant attempts <= TallyOf(log).spawns + disturbed && unread <= failed
        invariant Quiet() ==> attempts == if spawned then 1 else 0
        invariant Quiet() && !spawned ==> db == s
        invariant Quiet() && spawned ==>
                    !blocked && FindNext(s, project, {}) == None && CanSpawn(s, project) && db == SpawnTx(s, project)
      {
        attempts := attempts + 1;
        var o := Attempt(project, agent, {}, blocked, spawned, q);
        match o {
          case Got(t) =>
            response := Assigned(t);
            return;
          case Unclaimed(e) =>
            if e == Broken {
              response := InternalError;
              return;
            }
          case Lost(_, e) =>
            unread := unread + 1;
            if e == Broken {
              response := InternalError;
              return;
            }
          case Planned =>
            spawned := true;
          case _ =>
            response := NoContent;
            return;
        }
      }
      response := TryAgain;
    }

    /** The updates that put a task back, missed it, or failed. */
    ghost function Updates(): nat
      reads this
    {
      |TallyOf(log).requeued| + |TallyOf(log).missed| + failed
    }

    /** One pass of the stuck-task detector: the tasks are listed first and then put back one by
        one, each update looking at the v2 column again, but not at the lease. Every listed task is
        put back, or missed because it was neither claimed nor running by then, or its update
        failed. */
    method RequeueStuck(threshold: nat) returns (ok: bool, requeued: nat)
      requires IdsOk(db) && Fresh()
      modifies this
      ensures Tracks(Housekeeping(old(db))) && requeued == |TallyOf(log).requeued|
      ensures ok <==> faults(0) == NoFault
      ensures var listed := StuckTasks(ExecAll(old(db), others(0)), threshold);
              if ok then Handled(TallyOf(log), listed) && requeued + |TallyOf(log).missed| + failed == |listed|
              else TallyOf(log) == NOTHING_YET
      ensures Quiet() ==> ok && db == RequeueAll(old(db), StuckTasks(old(db), threshold))
                          && requeued == |StuckTasks(old(db), threshold)|
    {
      ghost var s := db;
      requeued := 0;
      var f := Access(Housekeeping(s));
      ok := f == NoFault;
      if ok {
        requeued := RequeueListed(StuckTasks(db, threshold), s);
      }
    }

    method RequeueListed(stuck: set<nat>, ghost s: Store) returns (requeued: nat)
      requires Tracks(Housekeeping(s)) && TallyOf(log) == NOTHING_YET
      modifies this
      ensures Tracks(Housekeeping(s)) && Handled(TallyOf(log), stuck) && requeued == |TallyOf(log).requeued|
      ensures Updates() == |stuck| + old(Updates())
      ensures Quiet() && old(db) == s && (forall t :: t in stuck ==> Requeueable(s, t)) ==>
                db == RequeueAll(s, stuck) && requeued == |stuck|
    {
      var todo := stuck;
      requeued := 0;
      ghost var calm := Quiet() && db == s && forall t :: t in stuck ==> Requeueable(s, t);
      NothingRequeued(s);
      ghost var done: set<nat> := {};
      while todo != {}
        invariant Tracks(Housekeeping(s)) && Parts(done, todo, stuck)
        invariant Handled(TallyOf(log), done) && requeued == |TallyOf(log).requeued|
        invariant Updates() == |done| + old(Updates())
        invariant calm ==> db == RequeueAll(s, done) && requeued == |done|
      {
        var t :| t in todo;
        Moved(done, todo, stuck, t);
        todo := todo - {t};
        var updated := TryRequeue(t, s, done);
        if updated {
          requeued := requeued + 1;
        }
        done := done + {t};
      }
      assert done == stuck;
    }

    /** The update of one listed task. */
    method TryRequeue(t: nat, ghost s: Store, ghost done: set<nat>) returns (updated: bool)
      requires Tracks(Housekeeping(s)) && Handled(TallyOf(log), done) && t !in done
      modifies this
      ensures Tracks(Housekeeping(s)) && Handled(TallyOf(log), done + {t})
      ensures |TallyOf(log).requeued| == old(|TallyOf(log).requeued|) + if updated then 1 else 0
      ensures Updates() == old(Updates()) + 1
      ensures Quiet() && old(db) == RequeueAll(s, done) && Requeueable(s, t) ==> updated && db == RequeueAll(s, done + {t})
    {
      if Requeueable(s, t) {
        RequeueOne(s, done, t);
      }
      HandledMore(TallyOf(log), done, t);
      var f := Access(Housekeeping(s));
      updated := f == NoFault && Requeueable(db, t);
      if updated {
        Write(Requeue(t), Housekeeping(s));
      } else if f == NoFault {
        Snoc(Housekeeping(s), log, Missed(t));
        log := log + [Missed(t)];
      }
    }
  }

  const MAX_ATTEMPTS := 5
  const MAX_CLAIM_ATTEMPTS := 20

  datatype ClaimResult = Done | Conflicting | Refused(e: Fault) | Unread(e: Fault) {
    predicate Committed() {
      Done? || Unread?
    }
  }

  /** What a round ends with: a task that is assigned; no claim, because of a fault or a conflict;
      a claim that was committed and not read back; twice nothing to claim; a planner spawned, not
      to be spawned, or not spawned because of a fault. */
  datatype Outcome =
    Got(task: nat) | Unclaimed(e: Fault) | Lost(task: nat, e: Fault) | Nothing | Planned | NotPlanned | PlanFailed

  datatype Response = Assigned(task: nat) | NoContent | Accepted | TryAgain | InternalError

  /** What a round adds to the tally. */
  ghost predicate Took(c: Tally, o: Outcome, c': Tally) {
    && c'.requeued == c.requeued && c'.missed == c.missed
    && c'.claims == c.claims + (if o.Got? || o.Lost? then [o.task] else [])
    && c'.spawns == c.spawns + (if o == Planned then 1 else 0)
    && c'.empty == c.empty + (if o.Got? || o.Unclaimed? || o.Lost? then 0 else 1)
  }

  lemma TookNone(c: Tally, project: string, o: Outcome, c': Tally)
    requires o == Nothing || o == Planned || o == NotPlanned || o == PlanFailed
    requires var c1 := Count(c, Asked(None)); c' == if o == Planned then Count(c1, Ours(SpawnPlanner(project))) else c1
    ensures Took(c, o, c')
  {
  }

  lemma TookSome(c: Tally, found: Option<nat>, o: Outcome, c': Tally)
    requires found.Some? && (o.Got? || o.Unclaimed? || o.Lost?) && Took(Count(c, Asked(found)), o, c')
    ensures Took(c, o, c')
  {
  }

  /** The tally between two rounds. */
  ghost predicate Going(c: Tally, spawned: bool, unread: nat) {
    && c.requeued == c.missed == [] && |c.claims| == unread
    && c.spawns == c.empty == if spawned then 1 else 0
  }

  /** The tally at the end: `unread` claims are lost, and behind them is the one assigned. */
  ghost predicate Served(r: Response, c: Tally, unread: nat) {
    && c.requeued == c.missed == [] && c.spawns <= 1
    && if r.Assigned? then |c.claims| == unread + 1 && c.claims[unread] == r.task else |c.claims| == unread
  }

  /** The outcome of a round that nothing disturbs. */
  function QuietAttempt(s: Store, project: string, agent: string, caps: set<string>, blocked: bool, attempted: bool):
    (Outcome, Store)
  {
    match FindNext(s, project, caps)
    case Some(t) => (Got(t), Exec(s, Claim(t, agent)))
    case None =>
      if attempted then (Nothing, s)
      else if blocked || !CanSpawn(s, project) then (NotPlanned, s)
      else (Planned, SpawnTx(s, project))
  }

  /** The v1 endpoint reports a planner nobody could claim as no task. */
  function Quietly(r: (Response, Store)): (Response, Store) {
    if r.0 == Accepted then (NoContent, r.1) else r
  }

  /** The outcome of a claim-next that nothing disturbs. */
  function Undisturbed(s: Store, project: string, agent: string, caps: set<string>, blocked: bool): (Response, Store) {
    match FindNext(s, project, caps)
    case Some(t) => (Assigned(t), Exec(s, Claim(t, agent)))
    case None =>
      if blocked || !CanSpawn(s, project) then (NoContent, s)
      else
        var s1 := SpawnTx(s, project);
        match FindNext(s1, project, caps)
        case Some(t) => (Assigned(t), Exec(s1, Claim(t, agent)))
        case None => (Accepted, s1)
  }

  // ----- what an undisturbed claim-next does -----

  /** It hands out the first claimable task if there is one; otherwise, unless a policy, a recent
      planner or an open planner forbids it, it creates a planner and hands that out, except when
      a lease for the identifier of the new task is already there; otherwise nothing changes. */
  lemma UndisturbedIs(s: Store, project: string, agent: string, caps: set<string>, blocked: bool, t: nat)
    requires IdsOk(s)
    ensures var (r, s') := Undisturbed(s, project, agent, caps, blocked);
            && (Claimable(s, project, t) && (forall u :: Claimable(s, project, u) && u != t ==> Before(s, caps, t, u)) ==>
                  r == Assigned(t) && s' == Exec(s, Claim(t, agent)))
            && ((forall u :: !Claimable(s, project, u)) ==>
                  if blocked || !CanSpawn(s, project) then r == NoContent && s' == s
                  else if HasActiveLease(s, s.nextTask) then r == Accepted && s' == SpawnTx(s, project)
                  else r == Assigned(s.nextTask) && s' == Exec(SpawnTx(s, project), Claim(s.nextTask, agent)))
  {
    FindNextIsLeast(s, project, caps, t);
    if (forall u :: !Claimable(s, project, u)) && !blocked && CanSpawn(s, project) {
      SpawnedIsNext(s, project, caps);
    }
  }

  lemma SpawnedIsNext(s: Store, project: string, caps: set<string>)
    requires IdsOk(s) && CanSpawn(s, project) && forall u :: !Claimable(s, project, u)
    ensures FindNext(SpawnTx(s, project), project, caps) == if HasActiveLease(s, s.nextTask) then None else Some(s.nextTask)
  {
    var s1 := SpawnTx(s, project);
    forall u ensures HasActiveLease(s1, u) <==> HasActiveLease(s, u) {
    }
    forall u ensures Claimable(s1, project, u) <==> u == s.nextTask && !HasActiveLease(s, u) {
      assert !Claimable(s, project, u);
    }
    FindNextIsLeast(s1, project, caps, s.nextTask);
  }

  // ----- stuck tasks -----

  /** CLAIMED or RUNNING, not written for `threshold` seconds, and held by nobody. */
  predicate Stuck(s: Store, t: nat, threshold: nat) {
    Requeueable(s, t) && s.tasks[t].updatedAt < s.now - threshold && !HasActiveLease(s, t)
  }

  function StuckTasks(s: Store, threshold: nat): set<nat> {
    set t | t in s.tasks && Stuck(s, t, threshold)
  }

  function RequeueAll(s: Store, ts: set<nat>): Store {
    s.(tasks := map t | t in s.tasks ::
         if t in ts then s.tasks[t].(v1 := NotPicked, v2 := Queued, updatedAt := s.now) else s.tasks[t])
  }

  /** Nothing was claimed or spawned, and only listed tasks were put back or missed, each once. */
  ghost predicate Handled(c: Tally, listed: set<nat>) {
    c.claims == [] && c.spawns == 0 && multiset(c.requeued) + multiset(c.missed) <= multiset(listed)
  }

  ghost predicate Parts(done: set<nat>, todo: set<nat>, all: set<nat>) {
    done !! todo && done + todo == all
  }

  lemma Moved(done: set<nat>, todo: set<nat>, all: set<nat>, t: nat)
    requires Parts(done, todo, all) && t in todo
    ensures Parts(done + {t}, todo - {t}, all) && t in all && t !in done && |done + {t}| == |done| + 1
  {
  }

  lemma HandledMore(c: Tally, done: set<nat>, t: nat)
    requires Handled(c, done) && t !in done
    ensures Handled(c, done + {t}) && Handled(c.(requeued := c.requeued + [t]), done + {t})
    ensures Handled(c.(missed := c.missed + [t]), done + {t})
  {
    assert multiset(done + {t}) == multiset(done) + multiset{t};
  }

  lemma RequeueOne(s: Store, done: set<nat>, t: nat)
    requires t in s.tasks && t !in done
    ensures Requeueable(RequeueAll(s, done), t) <==> Requeueable(s, t)
    ensures Requeueable(s, t) ==> Exec(RequeueAll(s, done), Requeue(t)) == RequeueAll(s, done + {t})
  {
    if Requeueable(s, t) {
      assert Exec(RequeueAll(s, done), Requeue(t)).tasks == RequeueAll(s, done + {t}).tasks;
    }
  }

  lemma NothingRequeued(s: Store)
    ensures RequeueAll(s, {}) == s
  {
    assert RequeueAll(s, {}).tasks == s.tasks;
  }

  /** After an undisturbed pass nothing is stuck, every approved task that was put back is
      offered again, and a task somebody holds has not been touched. */
  lemma RequeueOffersAgain(s: Store, threshold: nat, t: nat)
    requires t in s.tasks
    ensures var s' := RequeueAll(s, StuckTasks(s, threshold));
            && StuckTasks(s', threshold) == {}
            && (Stuck(s, t, threshold) && (!s.tasks[t].needsApproval || s.tasks[t].approved) ==>
                  Claimable(s', s.tasks[t].project, t))
            && (HasActiveLease(s, t) ==> s'.tasks[t] == s.tasks[t])
  {
    var s' := RequeueAll(s, StuckTasks(s, threshold));
    forall u ensures HasActiveLease(s', u) <==> HasActiveLease(s, u) {
    }
    forall u | u in s'.tasks ensures !Stuck(s', u, threshold) {
      assert u in StuckTasks(s, threshold) <==> Stuck(s, u, threshold);
    }
  }

  /** A task that is claimed between the listing and its update is put back under the new holder:
      it stands queued under an active lease, and claim-next does not offer it while that lasts. */
  lemma RequeueIsRaced(s: Store, t: nat, threshold: nat, agent: string)
    requires Stuck(s, t, threshold)
    ensures var s1 := Exec(s, Claim(t, agent));
            var s2 := Exec(s1, Requeue(t));
            && Granted(s, Claim(t, agent)) && s2.tasks[t].v1 == NotPicked && s2.tasks[t].v2 == Queued
            && HasActiveLease(s2, t) && !Claimable(s2, s.tasks[t].project, t)
  {
    GrantedIffFree(s, t, agent);
    var s2 := Exec(Exec(s, Claim(t, agent)), Requeue(t));
    assert Lease(s.nextLease, t, agent, s.now + LEASE_TTL) in s2.leases;
  }

  /** The statements that put a new lease on the task. */
  predicate Leases(st: Stmt, t: nat) {
    (st.Claim? || st.CreateLease?) && st.task == t
  }

  lemma OnlyLeasesHold(s: Store, st: Stmt, t: nat)
    requires !HasActiveLease(s, t) && HasActiveLease(Exec(s, st), t)
    ensures Leases(st, t)
  {
    var s' := Exec(s, st);
    var l :| l in s'.leases && l.task == t && l.expires > s'.now;
  }

  lemma {:induction false} HeldByNewLease(s: Store, h: seq<Stmt>, t: nat)
    requires !HasActiveLease(s, t) && HasActiveLease(ExecAll(s, h), t)
    ensures exists i :: 0 <= i < |h| && Leases(h[i], t)
    decreases |h|
  {
    var g := h[..|h| - 1];
    if HasActiveLease(ExecAll(s, g), t) {
      HeldByNewLease(s, g, t);
    } else {
      OnlyLeasesHold(ExecAll(s, g), h[|h| - 1], t);
    }
  }

  /** Whatever happens between the listing of a stuck task and its update: a task that somebody
      holds by then is put back under its holder if and only if it is claimed or running at the
      update, and somebody holds it only by a claim or a lease made in between. */
  lemma RequeueRacedExactly(s: Store, between: seq<Stmt>, t: nat, threshold: nat)
    requires Stuck(s, t, threshold)
    ensures var s1 := ExecAll(s, between);
            var s2 := Exec(s1, Requeue(t));
            && t in s1.tasks
            && (HasActiveLease(s2, t) && s1.tasks[t].v2 != Queued && s2.tasks[t].v2 == Queued
                <==> HasActiveLease(s1, t) && Requeueable(s1, t))
            && (HasActiveLease(s1, t) ==> exists i :: 0 <= i < |between| && Leases(between[i], t))
  {
    TasksStay(s, between, t);
    var s1 := ExecAll(s, between);
    if HasActiveLease(s1, t) {
      HeldByNewLease(s, between, t);
    }
    assert Exec(s1, Requeue(t)).leases == s1.leases && Exec(s1, Requeue(t)).now == s1.now;
  }
}
