/** Automation governance: storing an event runs a hook that processes it on the spot, so events
    re-enter the processing of events. Why that stops, how many events one event can cause, and
    what the follow-up tasks it creates obey. */
module Automation {
  import opened Options
  import opened Store
  import CircuitBreaker
  import Emissions

  // ----- events -----

  datatype Kind =
    | TaskCompleted | TaskFailed | RunFailed | LeaseExpired | RepoChanged | RepoScanned
    | ContextInvalidated | MemoryCreated | DependencyUnblocked | ProjectIdle
    | Inert(name: string)

  /** `task` is the task identifier that the entity or the payload yields, if any. `scope` is the
      scope named in the payload of memory.created. */
  datatype Event = Event(kind: Kind, project: string, task: Option<nat>, scope: string)

  /** Every event stored while another one is processed has a smaller rank. */
  function Rank(k: Kind): nat {
    match k
    case RepoChanged => 3
    case RepoScanned => 2
    case MemoryCreated => 2
    case TaskCompleted => 2
    case Inert(_) => 0
    case _ => 1
  }

  /** The events one event can cause, itself included, when the rule stage stores at most `q`
      and the completed task has `d` dependents. */
  function Worst(k: Kind, q: nat, d: nat): nat
    decreases Rank(k)
  {
    match k
    case Inert(_) => 1
    case DependencyUnblocked => 1 + q
    case TaskCompleted => 1 + d * Worst(DependencyUnblocked, q, 0) + q
    case RepoChanged => 1 + Worst(RepoScanned, q, 0) + q
    case RepoScanned => 1 + Worst(ContextInvalidated, q, 0) + q
    case MemoryCreated => 1 + Worst(ContextInvalidated, q, 0) + q
    case _ => 2 + q
  }

  lemma WorstIs(q: nat, d: nat)
    ensures Worst(RepoChanged, q, d) == 4 + 3 * q && Worst(RepoScanned, q, d) == Worst(MemoryCreated, q, d) == 3 + 2 * q
    ensures Worst(TaskCompleted, q, d) == 1 + d * (1 + q) + q
  {
  }

  // ----- rules -----

  /** `title` and `instructions` are templates; `parentNone` is the parent setting `none`. */
  datatype Action = Action(createTask: bool, title: Option<string>, instructions: string, parentNone: bool)

  datatype Rule = Rule(name: string, enabled: bool, trigger: Kind, actions: seq<Action>)

  /** One event per rule, two per action. */
  function Budget(rules: seq<Rule>): nat {
    if rules == [] then 0 else Budget(rules[..|rules| - 1]) + 1 + 2 * |rules[|rules| - 1].actions|
  }

  function Actions(rules: seq<Rule>): nat {
    if rules == [] then 0 else Actions(rules[..|rules| - 1]) + |rules[|rules| - 1].actions|
  }

  lemma {:induction false} BudgetIs(rules: seq<Rule>)
    ensures Budget(rules) == |rules| + 2 * Actions(rules)
    decreases |rules|
  {
    if rules != [] {
      BudgetIs(rules[..|rules| - 1]);
    }
  }

  function Max(a: int, b: int): int {
    if a < b then b else a
  }

  // ----- tasks -----

  datatype Row = Row(project: string, parent: Option<nat>, title: Option<string>, status: StatusV2, depth: nat)

  predicate IsOpen(r: Row) {
    !TerminalV2(r.status)
  }

  predicate SameFollowUp(a: Row, b: Row) {
    a.project == b.project && a.parent.Some? && a.parent == b.parent && a.title.Some? && a.title == b.title
  }

  /** Whether an open task with this project, parent and title is stored. */
  predicate Duplicate(tasks: map<nat, Row>, project: string, parent: nat, title: string) {
    exists t :: t in tasks && SameFollowUp(tasks[t], Row(project, Some(parent), Some(title), Queued, 0)) && IsOpen(tasks[t])
  }

  /** Two tasks the guard against duplicates let through are the same follow-up, and both open. */
  predicate Clash(tasks: map<nat, Row>, guarded: set<nat>, t: nat, u: nat) {
    t in guarded && u in guarded && t in tasks && u in tasks && SameFollowUp(tasks[t], tasks[u])
    && IsOpen(tasks[t]) && IsOpen(tasks[u])
  }

  /** `guarded` holds the tasks that were created after the guard had been asked and had found
      nothing. Of those that are the same follow-up, at most one is open. */
  ghost predicate UniqueFollowUps(tasks: map<nat, Row>, guarded: set<nat>) {
    forall t, u :: Clash(tasks, guarded, t, u) ==> t == u
  }

  /** `origin` maps a task that a rule or a failure follow-up created to the task it was created
      for. The stored depth counts these edges, and none leads beyond the limit. */
  predicate DepthOk(tasks: map<nat, Row>, origin: map<nat, nat>, limit: int, t: nat) {
    if t in origin then
      t in tasks && origin[t] < t && origin[t] in tasks && tasks[t].depth == tasks[origin[t]].depth + 1 <= limit
    else t in tasks ==> tasks[t].depth == 0
  }

  ghost predicate Sound(tasks: map<nat, Row>, nextTask: nat, origin: map<nat, nat>, guarded: set<nat>, limit: int) {
    && 0 < nextTask && (forall t :: t in tasks ==> 0 < t < nextTask) && guarded <= tasks.Keys
    && (forall t :: DepthOk(tasks, origin, limit, t)) && UniqueFollowUps(tasks, guarded)
  }

  /** Rows stay, and nothing changes in them but a claimed or running task that is queued again. */
  predicate Kept(a: map<nat, Row>, b: map<nat, Row>, t: nat) {
    t in a ==> t in b && (b[t] == a[t] || (a[t].status in {Claimed, Running} && b[t] == a[t].(status := Queued)))
  }

  ghost predicate Grows(a: map<nat, Row>, b: map<nat, Row>) {
    forall t :: Kept(a, b, t)
  }

  /** The edges back to the last task of depth 0. */
  function Chain(origin: map<nat, nat>, t: nat): nat
    decreases t
  {
    if t in origin && origin[t] < t then 1 + Chain(origin, origin[t]) else 0
  }

  /** In every sound state the depth of a task is the length of its chain of automation edges,
      so no chain is longer than the limit. */
  lemma {:induction false} DepthIsChain(tasks: map<nat, Row>, nextTask: nat, origin: map<nat, nat>, guarded: set<nat>, limit: nat, t: nat)
    requires Sound(tasks, nextTask, origin, guarded, limit) && t in tasks
    ensures tasks[t].depth == Chain(origin, t) <= limit
    decreases t
  {
    assert DepthOk(tasks, origin, limit, t);
    if t in origin {
      DepthIsChain(tasks, nextTask, origin, guarded, limit, origin[t]);
    }
  }

  /** Editing a task keeps follow-ups unique if and only if no other open follow-up is the same as
      the edited one: closing always does, reopening or moving may not. */
  lemma EditKeepsUnique(tasks: map<nat, Row>, guarded: set<nat>, t: nat, r: Row)
    requires UniqueFollowUps(tasks, guarded) && t in tasks && t in guarded
    ensures UniqueFollowUps(tasks[t := r], guarded)
            <==> !(IsOpen(r) && exists u :: u in guarded && u in tasks && u != t && SameFollowUp(tasks[u], r) && IsOpen(tasks[u]))
  {
    var edited := tasks[t := r];
    if IsOpen(r) && exists u :: u in guarded && u in tasks && u != t && SameFollowUp(tasks[u], r) && IsOpen(tasks[u]) {
      var u :| u in guarded && u in tasks && u != t && SameFollowUp(tasks[u], r) && IsOpen(tasks[u]);
      assert Clash(edited, guarded, u, t);
    } else {
      forall u, v | Clash(edited, guarded, u, v) ensures u == v {
        assert u != t && v != t ==> Clash(tasks, guarded, u, v);
        assert u in tasks && v in tasks;
      }
    }
  }

  lemma InsertKeepsSound(tasks: map<nat, Row>, nextTask: nat, origin: map<nat, nat>, guarded: set<nat>, limit: int, r: Row)
    requires Sound(tasks, nextTask, origin, guarded, limit) && r.depth == 0
    ensures Sound(tasks[nextTask := r], nextTask + 1, origin, guarded, limit) && Grows(tasks, tasks[nextTask := r])
  {
    var b := tasks[nextTask := r];
    forall t ensures DepthOk(b, origin, limit, t) {
      assert DepthOk(tasks, origin, limit, t);
    }
    forall t, u | Clash(b, guarded, t, u) ensures t == u {
      assert t in tasks && u in tasks;
      assert Clash(tasks, guarded, t, u);
    }
  }

  lemma GuardKeepsSound(tasks: map<nat, Row>, nextTask: nat, origin: map<nat, nat>, guarded: set<nat>, limit: int, t: nat)
    requires Sound(tasks, nextTask, origin, guarded, limit) && t in tasks
    requires forall u :: u in guarded && SameFollowUp(tasks[u], tasks[t]) ==> !IsOpen(tasks[u])
    ensures Sound(tasks, nextTask, origin, guarded + {t}, limit)
  {
    forall u, v | Clash(tasks, guarded + {t}, u, v) ensures u == v {
      assert u != t && v != t ==> Clash(tasks, guarded, u, v);
      assert SameFollowUp(tasks[v], tasks[u]);
    }
  }

  lemma DeepenKeepsSound(tasks: map<nat, Row>, nextTask: nat, origin: map<nat, nat>, guarded: set<nat>, limit: int, t: nat, p: nat)
    requires Sound(tasks, nextTask, origin, guarded, limit) && t in tasks && p in tasks && p < t && t !in origin
    requires tasks[p].depth + 1 <= limit && forall u :: u in origin ==> origin[u] != t
    ensures Sound(tasks[t := tasks[t].(depth := tasks[p].depth + 1)], nextTask, origin[t := p], guarded, limit)
  {
    var b, edges := tasks[t := tasks[t].(depth := tasks[p].depth + 1)], origin[t := p];
    forall u ensures DepthOk(b, edges, limit, u) {
      assert DepthOk(tasks, origin, limit, u);
    }
    forall u, v | Clash(b, guarded, u, v) ensures u == v {
      assert Clash(tasks, guarded, u, v);
    }
  }

  /** Nothing was created for a task that is being created. */
  lemma FreshHasNoEdges(tasks: map<nat, Row>, nextTask: nat, origin: map<nat, nat>, guarded: set<nat>, limit: int)
    requires Sound(tasks, nextTask, origin, guarded, limit)
    ensures nextTask !in origin && forall u :: u in origin ==> origin[u] != nextTask
  {
    assert DepthOk(tasks, origin, limit, nextTask);
    forall u | u in origin ensures origin[u] != nextTask {
      assert DepthOk(tasks, origin, limit, u);
    }
  }

  /** After the guard has found no duplicate, a new follow-up clashes with nothing. */
  lemma NoDuplicate(tasks: map<nat, Row>, guarded: set<nat>, r: Row, id: nat)
    requires r.parent.Some? && r.title.Some? && guarded <= tasks.Keys && id !in tasks
    requires !Duplicate(tasks, r.project, r.parent.value, r.title.value)
    ensures forall u :: u in guarded && SameFollowUp(tasks[id := r][u], r) ==> !IsOpen(tasks[id := r][u])
  {
    forall u | u in guarded && SameFollowUp(tasks[u], r) ensures !IsOpen(tasks[u]) {
      assert SameFollowUp(tasks[u], Row(r.project, Some(r.parent.value), Some(r.title.value), Queued, 0));
    }
  }

  // ----- the engine -----

  function Digits(n: nat): string {
    (if n >= 10 then Digits(n / 10) else "") + ["0123456789"[n % 10]]
  }

  function FollowUpKind(t: nat): string {
    "run.failed.followup." + Digits(t)
  }

  function FollowUpTitle(t: nat, row: Row): string {
    "Investigate failure: " + if row.title.Some? && row.title.value != "" then row.title.value else "task " + Digits(t)
  }

  const MAX_FOLLOW_UP_DEPTH := 3

  /** What processing an event changes, the ghosts of the invariants aside: tasks and the next
      identifier, the number of events, the dedupe keys stored and won, the tasks unblocked. */
  datatype State = State(
    tasks: map<nat, Row>, next: nat, events: nat, dependencies: seq<(nat, nat)>, now: nat, window: nat,
    keys: set<Emissions.Key>, won: set<Emissions.Key>, unblocked: seq<nat>)

  function WithEvent(s: State): State {
    s.(events := s.events + 1)
  }

  /** A new task, and the event that tells of it. */
  function WithTask(s: State, r: Row): State {
    s.(tasks := s.tasks[s.next := r], next := s.next + 1, events := s.events + 1)
  }

  function Unblocked(s: State, d: nat): State {
    s.(unblocked := s.unblocked + [d])
  }

  predicate DueIn(s: State, project: string, kind: string) {
    s.window > 0 && Emissions.KeyAt(project, kind, s.now, s.window) !in s.keys
  }

  function Recorded(s: State, project: string, kind: string): State
    requires DueIn(s, project, kind)
  {
    var k := Emissions.KeyAt(project, kind, s.now, s.window);
    s.(keys := s.keys + {k}, won := s.won + {k})
  }

  /** The emissions an event leads to, each once per project and window. */
  function EmissionsOf(e: Event): seq<string> {
    match e.kind
    case RepoChanged => ["repo.scanned", "context.invalidated", "context.refresh.queued"]
    case RepoScanned => ["context.invalidated", "context.refresh.queued"]
    case MemoryCreated => if Relevant(e.scope) then ["context.invalidated", "context.refresh.queued"] else []
    case ContextInvalidated => ["context.refresh.queued"]
    case _ => []
  }

  function KeysAt(now: nat, window: nat, project: string, kinds: seq<string>): set<Emissions.Key> {
    if window == 0 then {} else set k | k in kinds :: Emissions.KeyAt(project, k, now, window)
  }

  lemma KeysOfOne(s: State, project: string, kind: string)
    requires s.window > 0
    ensures KeysAt(s.now, s.window, project, [kind]) == {Emissions.KeyAt(project, kind, s.now, s.window)}
  {
    assert kind in [kind];
  }

  /** The first emission of a chain, and then the rest. */
  lemma RefreshedMore(s: State, project: string, kind: string, more: seq<string>, all: seq<string>)
    requires s.window > 0 && DueIn(s, project, kind) && all == [kind] + more
    ensures Refreshed(WithEvent(Recorded(s, project, kind)), project, more) == Refreshed(s, project, all)
  {
    var key, rest := Emissions.KeyAt(project, kind, s.now, s.window), KeysAt(s.now, s.window, project, more);
    assert KeysAt(s.now, s.window, project, all) == {key} + rest by {
      forall k ensures k in all <==> k == kind || k in more {
      }
    }
    assert s.keys + {key} + rest == s.keys + ({key} + rest) && s.won + {key} + rest == s.won + ({key} + rest);
  }

  /** One task that refreshes the context, one event and one key for each of the kinds. */
  function Refreshed(s: State, project: string, kinds: seq<string>): State {
    s.(tasks := s.tasks[s.next := RefreshRow(project)], next := s.next + 1, events := s.events + |kinds|,
       keys := s.keys + KeysAt(s.now, s.window, project, kinds), won := s.won + KeysAt(s.now, s.window, project, kinds))
  }

  /** A failed task that is not too deep wins its key, and gets a follow-up unless a copy is open. */
  function AfterFailure(s: State, e: Event): State {
    if e.task.None? || e.task.value !in s.tasks || s.tasks[e.task.value].depth >= MAX_FOLLOW_UP_DEPTH
       || !DueIn(s, s.tasks[e.task.value].project, FollowUpKind(e.task.value)) then s
    else
      var t := e.task.value;
      var s1 := Recorded(s, s.tasks[t].project, FollowUpKind(t));
      if Copied(s.tasks, FollowUpRow(s.tasks, t)) then s1 else WithTask(s1, FollowUpRow(s.tasks, t))
  }

  datatype Outcome = Skipped | Created(id: nat) | CreateFailed

  /** What the engine cannot know: rendered templates, which project identifiers read as task
      identifiers, and, by number of question, the answers of the clock, the database, the
      limits and the policies: the seconds that pass, or, if positive, a failure, a limit hit, a
      denial. */
  datatype World = World(render: (string, Event, nat) -> string, asTask: string -> Option<nat>, answers: nat -> nat)

  class Engine {
    const rules: seq<Rule>
    const maxDepth: nat
    const world: World
    const breaker: CircuitBreaker.Breaker
    const emissions: Emissions.EmissionTable
    var tasks: map<nat, Row>
    var nextTask: nat
    var dependencies: seq<(nat, nat)>
    var stored: nat
    var now: nat
    var asked: nat
    ghost var origin: map<nat, nat>
    ghost var guarded: set<nat>
    /** The dedupe keys the workers have won. */
    ghost var taken: set<Emissions.Key>
    /** The tasks dependency.unblocked was stored for, in order. */
    ghost var unblocked: seq<nat>

    constructor (rules: seq<Rule>, maxDepth: nat, world: World, dependencies: seq<(nat, nat)>)
      ensures Valid() && fresh(breaker) && fresh(emissions)
      ensures this.rules == rules && this.maxDepth == maxDepth && this.world == world
      ensures tasks == map[] && stored == 0 && unblocked == [] && this.dependencies == dependencies
    {
      this.rules, this.maxDepth, this.world, this.dependencies := rules, maxDepth, world, dependencies;
      breaker := new CircuitBreaker.Breaker(0, 0);
      emissions := new Emissions.EmissionTable();
      tasks, nextTask, stored, now, asked, origin, guarded, taken, unblocked := map[], 1, 0, 0, 0, map[], {}, {}, [];
    }

    ghost function Limit(): nat {
      Max(maxDepth, MAX_FOLLOW_UP_DEPTH)
    }

    ghost predicate Valid()
      reads this, breaker, emissions
    {
      breaker.Valid() && emissions.Valid() && taken <= emissions.rows.Keys && Sound(tasks, nextTask, origin, guarded, Limit())
    }

    /** No query fails, no limit or policy stands in the way, and no time passes. */
    ghost predicate Calm() {
      forall i :: world.answers(i) == 0
    }

    /** Nothing disturbs, and no circuit stands in the way of a rule. */
    ghost predicate Undisturbed()
      reads breaker
    {
      Calm() && (rules == [] || AllClosed(breaker.states))
    }

    ghost function View(): State
      reads this, emissions
    {
      State(tasks, nextTask, stored, dependencies, now, emissions.windowSeconds, emissions.rows.Keys, taken, unblocked)
    }

    /** The current window has no emission of this kind yet. */
    ghost predicate Due(project: string, kind: string)
      reads this, emissions
    {
      emissions.windowSeconds > 0
      && Emissions.KeyAt(project, kind, now, emissions.windowSeconds) !in emissions.rows
    }

    /** No emission of the chain of this event has been made in this window. */
    ghost predicate ChainDue(e: Event)
      reads this, emissions
    {
      e.project != "" && EmissionsOf(e) != [] && forall k :: k in EmissionsOf(e) ==> Due(e.project, k)
    }

    /** The most events the rule stage stores. */
    function Quota(): nat {
      Max(2, Budget(rules))
    }

    /** GetTasksDependingOn: the existing tasks with a dependency on `t`, in row order. */
    function Dependents(t: nat): seq<nat>
      reads this
    {
      DependentsIn(dependencies, tasks.Keys, t)
    }

    function DependentCount(e: Event): nat
      reads this
    {
      if e.task.Some? then |Dependents(e.task.value)| else 0
    }

    predicate Appended(before: nat, most: nat)
      reads this
    {
      before <= stored <= before + most
    }

    method Ask() returns (n: nat)
      modifies `asked
      ensures Calm() ==> n == 0
    {
      n := world.answers(asked);
      asked := asked + 1;
    }

    /** Time passes. */
    method Clock() returns (t: nat)
      modifies `asked, `now
      ensures t == now && (Calm() ==> now == old(now))
    {
      var d := Ask();
      now := now + d;
      t := now;
    }

    /** A new row of depth 0, or a database error. */
    method CreateTask(project: string, parent: Option<nat>, title: Option<string>) returns (r: Option<nat>)
      requires Valid()
      modifies `tasks, `nextTask, `asked
      ensures Valid() && Grows(old(tasks), tasks)
      ensures r.None? ==> tasks == old(tasks) && !Calm()
      ensures r.Some? ==> r.value == old(nextTask) && tasks == old(tasks)[r.value := Row(project, parent, title, Queued, 0)]
      ensures nextTask == old(nextTask) + if r.Some? then 1 else 0
    {
      var failed := Ask();
      if failed > 0 {
        return None;
      }
      InsertKeepsSound(tasks, nextTask, origin, guarded, Limit(), Row(project, parent, title, Queued, 0));
      r := Some(nextTask);
      FreshHasNoEdges(tasks, nextTask, origin, guarded, Limit());
      tasks := tasks[nextTask := Row(project, parent, title, Queued, 0)];
      nextTask := nextTask + 1;
    }

    /** The depth is written by a second statement, which can fail. */
    method SetDepth(child: nat, trigger: nat, depth: nat)
      requires Valid() && child in tasks && child !in origin && trigger in tasks && trigger < child
      requires depth == tasks[trigger].depth + 1 <= Limit() && forall u :: u in origin ==> origin[u] != child
      modifies `tasks, `asked, `origin
      ensures Valid()
      ensures tasks == old(tasks)[child := old(tasks)[child].(depth := depth)] || (tasks == old(tasks) && !Calm())
    {
      var failed := Ask();
      if failed == 0 {
        DeepenKeepsSound(tasks, nextTask, origin, guarded, Limit(), child, trigger);
        tasks := tasks[child := tasks[child].(depth := depth)];
        origin := origin[child := trigger];
      }
    }

    /** Creates a task for `trigger` and writes its depth. `checked` says that the guard has just
        answered, and found no open copy. */
    method CreateFollowUp(project: string, parent: Option<nat>, title: Option<string>, trigger: nat, depth: nat, ghost checked: bool)
      returns (r: Option<nat>)
      requires Valid() && trigger in tasks && depth == tasks[trigger].depth + 1 <= Limit()
      requires checked ==> parent.Some? && title.Some? && !Duplicate(tasks, project, parent.value, title.value)
      modifies `tasks, `nextTask, `asked, `origin, `guarded
      ensures Valid() && Grows(old(tasks), tasks)
      ensures r.None? ==> tasks == old(tasks) && !Calm()
      ensures r.Some? ==> r.value == old(nextTask)
                          && (tasks == old(tasks)[r.value := Row(project, parent, title, Queued, depth)]
                              || (tasks == old(tasks)[r.value := Row(project, parent, title, Queued, 0)] && !Calm()))
      ensures nextTask == old(nextTask) + if r.Some? then 1 else 0
    {
      ghost var row := Row(project, parent, title, Queued, 0);
      assert nextTask !in origin && forall u :: u in origin ==> origin[u] != nextTask by {
        FreshHasNoEdges(tasks, nextTask, origin, guarded, Limit());
      }
      if checked {
        NoDuplicate(tasks, guarded, row, nextTask);
      }
      r := CreateTask(project, parent, title);
      if r.Some? {
        if checked {
          GuardKeepsSound(tasks, nextTask, origin, guarded, Limit(), r.value);
          guarded := guarded + {r.value};
        }
        SetDepth(r.value, trigger, depth);
        assert Grows(old(tasks), tasks) by {
          forall t ensures Kept(old(tasks), tasks, t) {
            assert t in old(tasks) ==> t != r.value;
          }
        }
      }
    }

    /** The guard answers no when its query fails. */
    method IsFollowUpDuplicate(project: string, parent: nat, title: string) returns (found: bool, failed: bool)
      modifies `asked
      ensures !failed ==> found == Duplicate(tasks, project, parent, title)
      ensures failed ==> !found && !Calm()
    {
      var answer := Ask();
      failed := answer > 0;
      found := !failed && Duplicate(tasks, project, parent, title);
    }

    method TryRecordEmission(project: string, kind: string) returns (recorded: bool)
      requires Valid()
      modifies `asked, `now, `taken, emissions
      ensures Valid() && old(taken) <= taken
      ensures recorded ==> Won(old(taken), taken, project, kind)
      ensures Calm() ==> recorded == old(Due(project, kind))
                         && View() == if recorded then Recorded(old(View()), project, kind) else old(View())
    {
      var failed := Ask();
      if failed > 0 {
        return false;
      }
      var t := Clock();
      ghost var key := Emissions.KeyAt(project, kind, t, emissions.windowSeconds);
      recorded := emissions.TryRecord(project, kind, t);
      if recorded {
        taken := taken + {key};
        assert key in taken;
      }
    }

    /** Stores an event and runs the hook. */
    method CreateEvent(e: Event) returns (ok: bool)
      requires Valid()
      modifies `tasks, `nextTask, `stored, `now, `asked, `origin, `guarded, `taken, `unblocked, breaker, emissions
      ensures e.kind != TaskCompleted ==> unblocked == old(unblocked)
      ensures Calm() && e.kind == TaskCompleted && e.task.Some? && old(DependenciesExist()) ==>
                unblocked == old(unblocked) + ReadyIn(dependencies, old(tasks), old(Dependents(e.task.value)))
      ensures Valid() && Grows(old(tasks), tasks)
      ensures Appended(old(stored), Worst(e.kind, Quota(), old(DependentCount(e)))) && old(taken) <= taken
      ensures ok ==> old(stored) < stored
      ensures Calm() ==> ok
      ensures old(Undisturbed()) ==> Undisturbed() && View() == AfterEvent(WithEvent(old(View())), e)
      ensures Calm() && rules == [] && old(ChainDue(e)) ==> View() == Refreshed(WithEvent(old(View())), e.project, EmissionsOf(e))
      ensures e.kind.Inert? ==> Untouched(old(View()), View()) && breaker.states == old(breaker.states)
                                && (Calm() ==> View() == WithEvent(old(View())))
      decreases Rank(e.kind), 5
    {
      var failed := Ask();
      if failed > 0 {
        return false;
      }
      Store(e);
      ok := true;
      if Calm() && rules == [] && old(ChainDue(e)) {
        ChainRefreshes(WithEvent(old(View())), e);
      }
    }

    /** The row is inserted; the hook processes the event on the spot. */
    method Store(e: Event)
      requires Valid()
      modifies `tasks, `nextTask, `stored, `now, `asked, `origin, `guarded, `taken, `unblocked, breaker, emissions
      ensures e.kind != TaskCompleted ==> unblocked == old(unblocked)
      ensures Calm() && e.kind == TaskCompleted && e.task.Some? && old(DependenciesExist()) ==>
                unblocked == old(unblocked) + ReadyIn(dependencies, old(tasks), old(Dependents(e.task.value)))
      ensures Valid() && Grows(old(tasks), tasks) && old(taken) <= taken
      ensures old(stored) < stored <= old(stored) + Worst(e.kind, Quota(), old(DependentCount(e)))
      ensures old(Undisturbed()) ==> Undisturbed() && View() == AfterEvent(WithEvent(old(View())), e)
      ensures e.kind.Inert? ==> View() == WithEvent(old(View())) && breaker.states == old(breaker.states)
      decreases Rank(e.kind), 4
    {
      stored := stored + 1;
      ProcessAutomationEvent(e);
    }

    method Notify(name: string, project: string)
      requires Valid()
      modifies `tasks, `nextTask, `stored, `now, `asked, `origin, `guarded, `taken, `unblocked, breaker, emissions
      ensures unblocked == old(unblocked)
      ensures Valid() && Appended(old(stored), 1) && (Calm() ==> old(stored) < stored) && taken == old(taken)
      ensures Untouched(old(View()), View()) && breaker.states == old(breaker.states)
      ensures Calm() ==> View() == WithEvent(old(View()))
      decreases 0, 6
    {
      var _ := CreateEvent(Event(Inert(name), project, None, ""));
    }

    method ProcessAutomationEvent(e: Event)
      requires Valid()
      modifies `tasks, `nextTask, `stored, `now, `asked, `origin, `guarded, `taken, `unblocked, breaker, emissions
      ensures e.kind != TaskCompleted ==> unblocked == old(unblocked)
      ensures Calm() && e.kind == TaskCompleted && e.task.Some? && old(DependenciesExist()) ==>
                unblocked == old(unblocked) + ReadyIn(dependencies, old(tasks), old(Dependents(e.task.value)))
      ensures Valid() && Grows(old(tasks), tasks)
      ensures Appended(old(stored), Worst(e.kind, Quota(), old(DependentCount(e))) - 1) && old(taken) <= taken
      ensures old(Undisturbed()) ==> Undisturbed() && View() == AfterEvent(old(View()), e)
      ensures e.kind.Inert? ==> View() == old(View()) && breaker.states == old(breaker.states)
      decreases Rank(e.kind), 3
    {
      if e.kind.Inert? {
        return;
      }
      RunWorker(e);
      label Worked:
      RunRuleStage(e);
      GrowsTwice(old(tasks), old@Worked(tasks), tasks);
    }

    /** The built-in worker for the kind of the event. */
    method RunWorker(e: Event)
      requires Valid() && !e.kind.Inert?
      modifies `tasks, `nextTask, `stored, `now, `asked, `origin, `guarded, `taken, `unblocked, breaker, emissions
      ensures e.kind != TaskCompleted ==> unblocked == old(unblocked)
      ensures Calm() && e.kind == TaskCompleted && e.task.Some? && old(DependenciesExist()) ==>
                unblocked == old(unblocked) + ReadyIn(dependencies, old(tasks), old(Dependents(e.task.value)))
      ensures Valid() && Grows(old(tasks), tasks)
      ensures Appended(old(stored), Worst(e.kind, Quota(), old(DependentCount(e))) - 1 - Quota()) && old(taken) <= taken
      ensures old(Undisturbed()) ==> Undisturbed() && View() == AfterWorker(old(View()), e)
      decreases Rank(e.kind), 2
    {
      match e.kind {
        case RunFailed => ProcessRunFailed(e);
        case TaskFailed => ProcessRunFailed(e);
        case TaskCompleted => ProcessTaskCompleted(e);
        case RepoChanged => ProcessRepoChanged(e);
        case RepoScanned => EmitContextInvalidated(e);
        case ContextInvalidated => ProcessContextInvalidated(e);
        case MemoryCreated => ProcessMemoryCreated(e);
        case LeaseExpired => ProcessLeaseExpired(e);
        case ProjectIdle => ProcessProjectIdle(e);
        case DependencyUnblocked =>
      }
    }

    /** Between events others write statuses, for instance complete or cancel a task. */
    method WriteStatus(t: nat, status: StatusV2)
      requires Valid() && t in tasks && (IsOpen(tasks[t]) || TerminalV2(status))
      modifies `tasks
      ensures Valid() && tasks == old(tasks)[t := old(tasks)[t].(status := status)]
    {
      StatusKeepsSound(tasks, nextTask, origin, guarded, Limit(), t, status);
      tasks := tasks[t := tasks[t].(status := status)];
    }

    // ----- the rule stage -----

    method RunRuleStage(e: Event)
      requires Valid() && !e.kind.Inert?
      modifies `tasks, `nextTask, `stored, `now, `asked, `origin, `guarded, `taken, `unblocked, breaker, emissions
      ensures unblocked == old(unblocked)
      ensures Valid() && Grows(old(tasks), tasks) && Appended(old(stored), Quota()) && taken == old(taken)
      ensures rules == [] || e.task.None? || e.task.value !in old(tasks) ==> tasks == old(tasks) && stored == old(stored)
      ensures e.task.Some? && e.task.value in old(tasks) && old(tasks)[e.task.value].depth + 1 > maxDepth ==>
                Appended(old(stored), 2) && breaker.states == old(breaker.states)
                && (tasks == old(tasks) || tasks == old(tasks)[old(nextTask) := EscalationOf(old(tasks), e.task.value)])
                && (Calm() && rules != [] ==>
                      stored == old(stored) + 2 && tasks == old(tasks)[old(nextTask) := EscalationOf(old(tasks), e.task.value)])
      ensures Calm() && (forall i :: 0 <= i < |rules| ==> !Matches(rules[i], e))
              && e.task.Some? && e.task.value in old(tasks) && old(tasks)[e.task.value].depth + 1 <= maxDepth ==>
                tasks == old(tasks) && stored == old(stored)
      ensures old(Undisturbed()) ==> Undisturbed() && View() == AfterStage(old(View()), e)
      decreases Rank(e.kind), 1
    {
      if |rules| == 0 || e.task == None {
        return;
      }
      var failed := Ask();
      var t := e.task.value;
      if failed > 0 || t !in tasks {
        return;
      }
      var task := tasks[t];
      if task.depth + 1 > maxDepth {
        Notify("automation.blocked", task.project);
        CreateOperatorTask(task.project, t, ESCALATION);
        return;
      }
      var limited := Ask();
      if limited > 0 {
        Notify("automation.blocked", task.project);
        CreateOperatorTask(task.project, t, LIMITS_EXCEEDED);
        return;
      }
      limited := Ask();
      if limited > 0 {
        Notify("automation.blocked", task.project);
        CreateOperatorTask(task.project, t, LIMITS_EXCEEDED);
        return;
      }
      failed := Ask();
      if failed > 0 {
        return;
      }
      var blocked := Ask();
      if blocked > 0 {
        Notify("policy.denied", task.project);
        Notify("automation.blocked", task.project);
        return;
      }
      RunRules(e, t, task);
    }

    predicate Matches(rule: Rule, e: Event) {
      rule.enabled && rule.trigger == e.kind
    }

    method RunRules(e: Event, t: nat, task: Row)
      requires Valid() && t in tasks && tasks[t].depth == task.depth && task.depth + 1 <= maxDepth
      modifies `tasks, `nextTask, `stored, `now, `asked, `origin, `guarded, `taken, `unblocked, breaker, emissions
      ensures unblocked == old(unblocked)
      ensures Valid() && Grows(old(tasks), tasks) && Appended(old(stored), Budget(rules)) && taken == old(taken)
      ensures (forall i :: 0 <= i < |rules| ==> !Matches(rules[i], e)) ==> tasks == old(tasks) && stored == old(stored)
      ensures Calm() && AllClosed(old(breaker.states)) ==>
                AllClosed(breaker.states) && View() == AfterRules(old(View()), rules, e, t, task)
      decreases 0, 13
    {
      var i := 0;
      while i < |rules|
        invariant i <= |rules| && Valid() && Grows(old(tasks), tasks) && t in tasks && tasks[t].depth == task.depth
        invariant Appended(old(stored), Budget(rules[..i])) && taken == old(taken)
        invariant (forall k :: 0 <= k < i ==> !Matches(rules[k], e)) ==> tasks == old(tasks) && stored == old(stored)
        invariant unblocked == old(unblocked)
        invariant Calm() && AllClosed(old(breaker.states)) ==> AllClosed(breaker.states)
        invariant Calm() && AllClosed(old(breaker.states)) ==>
                    View() == AfterRules(old(View()), rules[..i], e, t, task)
      {
        label Before:
        if Matches(rules[i], e) {
          RunRule(rules[i], e, t, task);
          GrowsTwice(old(tasks), old@Before(tasks), tasks);
          assert Kept(old@Before(tasks), tasks, t);
        }
        assert rules[..i + 1][..i] == rules[..i];
        i := i + 1;
      }
      assert rules[..|rules|] == rules;
    }

    /** One rule. When its circuit does not admit it, it creates nothing. */
    method RunRule(rule: Rule, e: Event, t: nat, task: Row)
      requires Valid() && t in tasks && tasks[t].depth == task.depth && task.depth + 1 <= maxDepth
      modifies `tasks, `nextTask, `stored, `now, `asked, `origin, `guarded, `taken, `unblocked, breaker, emissions
      ensures unblocked == old(unblocked)
      ensures Valid() && Grows(old(tasks), tasks) && Appended(old(stored), 1 + 2 * |rule.actions|) && taken == old(taken)
      ensures Calm() ==> old(stored) < stored
      ensures old(breaker.EntryOf(rule.name)).state == CircuitBreaker.HalfOpen ==> tasks == old(tasks) && Appended(old(stored), 1)
      ensures Calm() && !CircuitBreaker.Admits(breaker.cfg, old(breaker.EntryOf(rule.name)), old(now)) ==>
                tasks == old(tasks) && stored == old(stored) + 1
      ensures Calm() && CircuitBreaker.Admits(breaker.cfg, old(breaker.EntryOf(rule.name)), old(now)) ==>
                View() == AfterActions(WithEvent(old(View())), rule.actions, e, t, task)
      ensures Calm() && AllClosed(old(breaker.states)) ==> AllClosed(breaker.states)
      decreases 0, 12
    {
      var allowed := AskCircuit(rule);
      if !allowed {
        Notify("automation.blocked", task.project);
        return;
      }
      Notify("automation.triggered", task.project);
      RunActions(rule, e, t, task);
    }

    /** Whether the circuit of the rule admits it now. */
    method AskCircuit(rule: Rule) returns (allowed: bool)
      requires Valid()
      modifies `asked, `now, breaker
      ensures Valid() && allowed == CircuitBreaker.Admits(breaker.cfg, old(breaker.EntryOf(rule.name)), now)
      ensures Calm() ==> now == old(now)
      ensures AllClosed(old(breaker.states)) ==> AllClosed(breaker.states)
    {
      var clock := Clock();
      allowed := breaker.AllowExecution(rule.name, clock);
    }

    method RunActions(rule: Rule, e: Event, t: nat, task: Row)
      requires Valid() && t in tasks && tasks[t].depth == task.depth && task.depth + 1 <= maxDepth
      modifies `tasks, `nextTask, `stored, `now, `asked, `origin, `guarded, `taken, `unblocked, breaker, emissions
      ensures unblocked == old(unblocked)
      ensures Valid() && Grows(old(tasks), tasks) && Appended(old(stored), 2 * |rule.actions|) && taken == old(taken)
      ensures Calm() ==> View() == AfterActions(old(View()), rule.actions, e, t, task)
      ensures Calm() && AllClosed(old(breaker.states)) ==> AllClosed(breaker.states)
      decreases 0, 11
    {
      var i := 0;
      while i < |rule.actions|
        invariant i <= |rule.actions| && Valid() && Grows(old(tasks), tasks) && t in tasks && tasks[t].depth == task.depth
        invariant Appended(old(stored), 2 * i) && taken == old(taken) && unblocked == old(unblocked)
        invariant Calm() ==> View() == AfterActions(old(View()), rule.actions[..i], e, t, task)
        invariant Calm() && AllClosed(old(breaker.states)) ==> AllClosed(breaker.states)
      {
        label Before:
        var _ := RunAction(rule, rule.actions[i], e, t, task);
        GrowsTwice(old(tasks), old@Before(tasks), tasks);
        assert Kept(old@Before(tasks), tasks, t);
        assert rule.actions[..i + 1][..i] == rule.actions[..i];
        i := i + 1;
      }
      assert rule.actions[..i] == rule.actions;
    }

    /** One action. A created task is one deeper than the task it was created for, unless writing
        its depth failed; with both a title and a parent it is not created next to an open copy. */
    method RunAction(rule: Rule, action: Action, e: Event, t: nat, task: Row) returns (r: Outcome)
      requires Valid() && t in tasks && tasks[t].depth == task.depth && task.depth + 1 <= maxDepth
      modifies `tasks, `nextTask, `stored, `now, `asked, `origin, `guarded, `taken, `unblocked, breaker, emissions
      ensures unblocked == old(unblocked)
      ensures Valid() && Grows(old(tasks), tasks) && Appended(old(stored), 2) && taken == old(taken)
      ensures r.Skipped? ==> tasks == old(tasks) && stored == old(stored) && breaker.states == old(breaker.states)
      ensures r.Created? ==> r.id == old(nextTask)
                             && (tasks == old(tasks)[r.id := ChildRow(action, e, t, task, task.depth + 1)]
                                 || (tasks == old(tasks)[r.id := ChildRow(action, e, t, task, 0)] && !Calm()))
      ensures Calm() ==> (r.Created? <==> Wanted(action, e, t) && !Copied(old(tasks), ChildRow(action, e, t, task, 0)))
      ensures Calm() ==> !r.CreateFailed?
      ensures Calm() ==> View() == AfterAction(old(View()), action, e, t, task)
      ensures Calm() ==> breaker.states == if r.Created? then Succeed(old(breaker.states), rule.name) else old(breaker.states)
      ensures r.Created? ==> breaker.EntryOf(rule.name).state == CircuitBreaker.Closed
      ensures r.CreateFailed? ==> breaker.EntryOf(rule.name).failures == old(breaker.EntryOf(rule.name)).failures + 1
      decreases 0, 10
    {
      if !action.createTask {
        return Skipped;
      }
      var parent := if action.parentNone then None else Some(t);
      if world.render(action.instructions, e, t) == "" {
        return Skipped;
      }
      var title := RenderTitle(action, e, t);
      var unanswered := true;
      if title.Some? && parent.Some? {
        var found;
        found, unanswered := IsFollowUpDuplicate(task.project, parent.value, title.value);
        if found {
          return Skipped;
        }
      }
      r := CreateChild(rule, parent, title, t, task, !unanswered);
    }

    /** The task of an action, and what its circuit learns of it. */
    method CreateChild(rule: Rule, parent: Option<nat>, title: Option<string>, t: nat, task: Row, ghost checked: bool) returns (r: Outcome)
      requires Valid() && t in tasks && tasks[t].depth == task.depth && task.depth + 1 <= maxDepth
      requires checked ==> parent.Some? && title.Some? && !Duplicate(tasks, task.project, parent.value, title.value)
      modifies `tasks, `nextTask, `stored, `now, `asked, `origin, `guarded, `taken, `unblocked, breaker, emissions
      ensures Valid() && Grows(old(tasks), tasks) && Appended(old(stored), 2) && taken == old(taken) && unblocked == old(unblocked)
      ensures r.Created? || (r.CreateFailed? && !Calm())
      ensures r.Created? ==> r.id == old(nextTask)
                             && (tasks == old(tasks)[r.id := Row(task.project, parent, title, Queued, task.depth + 1)]
                                 || (tasks == old(tasks)[r.id := Row(task.project, parent, title, Queued, 0)] && !Calm()))
      ensures Calm() ==> View() == WithTask(old(View()), Row(task.project, parent, title, Queued, task.depth + 1))
      ensures r.Created? ==> breaker.states == Succeed(old(breaker.states), rule.name)
      ensures r.CreateFailed? ==> breaker.EntryOf(rule.name).failures == old(breaker.EntryOf(rule.name)).failures + 1
      decreases 0, 9
    {
      var child := CreateFollowUp(task.project, parent, title, t, task.depth + 1, checked);
      if child.None? {
        ActionFailed(rule, t, task.project);
        return CreateFailed;
      }
      TellCircuit(rule);
      Notify("task.created", task.project);
      r := Created(child.value);
    }

    method TellCircuit(rule: Rule)
      requires Valid()
      modifies breaker
      ensures Valid() && breaker.states == Succeed(old(breaker.states), rule.name)
    {
      breaker.RecordSuccess(rule.name);
    }

    /** The action creates tasks and its instructions are not empty. */
    predicate Wanted(action: Action, e: Event, t: nat) {
      action.createTask && world.render(action.instructions, e, t) != ""
    }

    /** The state after an action that nothing disturbs. */
    function AfterAction(s: State, action: Action, e: Event, t: nat, task: Row): State {
      if Wanted(action, e, t) && !Copied(s.tasks, ChildRow(action, e, t, task, 0))
      then WithTask(s, ChildRow(action, e, t, task, task.depth + 1)) else s
    }

    /** One action after the other: each sees the tasks the earlier ones created. */
    function AfterActions(s: State, actions: seq<Action>, e: Event, t: nat, task: Row): State {
      if actions == [] then s
      else AfterAction(AfterActions(s, actions[..|actions| - 1], e, t, task), actions[|actions| - 1], e, t, task)
    }

    /** One rule after the other, where every circuit is closed. */
    function AfterRules(s: State, rs: seq<Rule>, e: Event, t: nat, task: Row): State {
      if rs == [] then s
      else
        var before := AfterRules(s, rs[..|rs| - 1], e, t, task);
        if Matches(rs[|rs| - 1], e) then AfterActions(WithEvent(before), rs[|rs| - 1].actions, e, t, task) else before
    }

    /** The rule stage, where every circuit is closed: nothing without a task, an escalation at the
        depth limit, else the rules. */
    function AfterStage(s: State, e: Event): State {
      if rules == [] || e.task.None? || e.task.value !in s.tasks then s
      else if s.tasks[e.task.value].depth + 1 > maxDepth then WithTask(WithEvent(s), EscalationOf(s.tasks, e.task.value))
      else AfterRules(s, rules, e, e.task.value, s.tasks[e.task.value])
    }

    /** The event a worker stores for the project of `e`. */
    function Chained(kind: Kind, e: Event): Event {
      Event(kind, e.project, world.asTask(e.project), "")
    }

    /** The worker that stores `kind` for the project of `e`, once per window. */
    function AfterChain(s: State, emission: string, kind: Kind, e: Event): State
      requires kind in {RepoScanned, ContextInvalidated}
      decreases Rank(kind), 2
    {
      if e.project != "" && DueIn(s, e.project, emission)
      then AfterEvent(WithEvent(Recorded(s, e.project, emission)), Chained(kind, e)) else s
    }

    /** The dependents of a completed task, one after the other; `rows` is as it was at the start. */
    function AfterDependents(s: State, rows: map<nat, Row>, ds: seq<nat>): State
      decreases 1, 2, |ds|
    {
      if ds == [] then s
      else
        var d := ds[|ds| - 1];
        var before := AfterDependents(s, rows, ds[..|ds| - 1]);
        if d in rows && Waits(rows[d]) && AllSucceeded(s.dependencies, before.tasks, d)
        then Unblocked(AfterEvent(WithEvent(before), Event(DependencyUnblocked, rows[d].project, Some(d), "")), d)
        else before
    }

    /** The state after the worker for an event that nothing disturbs. */
    function AfterWorker(s: State, e: Event): State
      decreases Rank(e.kind), 0
    {
      match e.kind
      case RepoChanged => AfterChain(s, "repo.scanned", RepoScanned, e)
      case RepoScanned => AfterChain(s, "context.invalidated", ContextInvalidated, e)
      case MemoryCreated => if Relevant(e.scope) then AfterChain(s, "context.invalidated", ContextInvalidated, e) else s
      case TaskCompleted =>
        if e.task.Some? then AfterDependents(s, s.tasks, DependentsIn(s.dependencies, s.tasks.Keys, e.task.value)) else s
      case RunFailed => AfterFailure(s, e)
      case TaskFailed => AfterFailure(s, e)
      case LeaseExpired =>
        if e.task.Some? && e.task.value in s.tasks && s.tasks[e.task.value].status in {Claimed, Running}
        then WithEvent(s.(tasks := s.tasks[e.task.value := s.tasks[e.task.value].(status := Queued)])) else s
      case ContextInvalidated =>
        if e.project != "" && DueIn(s, e.project, "context.refresh.queued")
        then WithTask(Recorded(s, e.project, "context.refresh.queued"), RefreshRow(e.project)) else s
      case ProjectIdle =>
        if e.project != "" && DueIn(s, e.project, "project.idle.notified")
        then WithEvent(Recorded(s, e.project, "project.idle.notified")) else s
      case DependencyUnblocked => s
      case Inert(_) => s
    }

    /** The state after an event that nothing disturbs has been processed: worker, then rules. */
    function AfterEvent(s: State, e: Event): State
      decreases Rank(e.kind), 1
    {
      if e.kind.Inert? then s else AfterStage(AfterWorker(s, e), e)
    }

    /** Without rules, an event whose whole chain is due makes every emission of it, stores one event
        for each, and ends with the one task that refreshes the context. */
    lemma ChainRefreshes(s: State, e: Event)
      requires rules == [] && s.window > 0 && e.project != "" && EmissionsOf(e) != []
      requires forall k :: k in EmissionsOf(e) ==> DueIn(s, e.project, k)
      ensures AfterEvent(s, e) == Refreshed(s, e.project, EmissionsOf(e))
    {
      if e.kind == RepoChanged {
        ChangeRefreshes(s, e);
      } else if e.kind in {RepoScanned, MemoryCreated} {
        InvalidationRefreshes(s, e);
      } else {
        KeysOfOne(s, e.project, "context.refresh.queued");
      }
    }

    lemma InvalidationRefreshes(s: State, e: Event)
      requires rules == [] && s.window > 0 && e.project != ""
      requires e.kind == RepoScanned || (e.kind == MemoryCreated && Relevant(e.scope))
      requires DueIn(s, e.project, "context.invalidated") && DueIn(s, e.project, "context.refresh.queued")
      ensures AfterEvent(s, e) == Refreshed(s, e.project, ["context.invalidated", "context.refresh.queued"])
    {
      var s1 := WithEvent(Recorded(s, e.project, "context.invalidated"));
      assert AfterEvent(s, e) == AfterWorker(s, e) == AfterChain(s, "context.invalidated", ContextInvalidated, e);
      assert AfterWorker(s, e) == AfterEvent(s1, Chained(ContextInvalidated, e));
      KeysOfOne(s1, e.project, "context.refresh.queued");
      assert AfterEvent(s1, Chained(ContextInvalidated, e)) == Refreshed(s1, e.project, ["context.refresh.queued"]);
      RefreshedMore(s, e.project, "context.invalidated", ["context.refresh.queued"], ["context.invalidated", "context.refresh.queued"]);
    }

    lemma ChangeRefreshes(s: State, e: Event)
      requires rules == [] && s.window > 0 && e.project != "" && e.kind == RepoChanged
      requires DueIn(s, e.project, "repo.scanned")
      requires DueIn(s, e.project, "context.invalidated") && DueIn(s, e.project, "context.refresh.queued")
      ensures AfterEvent(s, e) == Refreshed(s, e.project, ["repo.scanned", "context.invalidated", "context.refresh.queued"])
    {
      var s1 := WithEvent(Recorded(s, e.project, "repo.scanned"));
      assert AfterEvent(s, e) == AfterWorker(s, e) == AfterChain(s, "repo.scanned", RepoScanned, e);
      assert AfterWorker(s, e) == AfterEvent(s1, Chained(RepoScanned, e));
      InvalidationRefreshes(s1, Chained(RepoScanned, e));
      RefreshedMore(s, e.project, "repo.scanned", ["context.invalidated", "context.refresh.queued"],
                    ["repo.scanned", "context.invalidated", "context.refresh.queued"]);
    }

    /** A failure, without rules: the first in its window of a stored task less than three deep gets a
        follow-up one deeper, unless an open one with its title is stored; no other gets anything. */
    lemma FailureEffect(s: State, e: Event, t: nat)
      requires rules == [] && s.window > 0 && e.kind in {Kind.RunFailed, TaskFailed} && e.task == Some(t)
      ensures t !in s.tasks ==> AfterEvent(s, e) == s
      ensures t in s.tasks ==>
                var task := s.tasks[t];
                var key := Emissions.Key(task.project, FollowUpKind(t), s.now / s.window);
                var title := FollowUpTitle(t, task);
                var copied := exists u :: u in s.tasks && s.tasks[u].project == task.project && s.tasks[u].parent == Some(t)
                                && s.tasks[u].title == Some(title) && s.tasks[u].status !in {Succeeded, Failed, Cancelled};
                var won := s.(keys := s.keys + {key}, won := s.won + {key});
                AfterEvent(s, e) == if task.depth >= 3 || key in s.keys then s
                                    else if copied then won
                                    else won.(tasks := s.tasks[s.next := Row(task.project, Some(t), Some(title), Queued, task.depth + 1)],
                                              next := s.next + 1, events := s.events + 1)
    {
      if t in s.tasks {
        var task := s.tasks[t];
        var r := FollowUpRow(s.tasks, t);
        assert Copied(s.tasks, r)
               <==> exists u :: u in s.tasks && s.tasks[u].project == task.project && s.tasks[u].parent == Some(t)
                      && s.tasks[u].title == Some(FollowUpTitle(t, task)) && s.tasks[u].status !in {Succeeded, Failed, Cancelled};
        assert AfterEvent(s, e) == AfterFailure(s, e);
      }
    }

    /** The other events whose workers store no processed event, without rules: an expired lease
        queues a claimed or running task, an idle project is notified once per window, a dependent
        that is told waits for the rules. */
    lemma SimpleEffect(s: State, e: Event)
      requires rules == [] && s.window > 0
      ensures e.kind == LeaseExpired ==>
                AfterEvent(s, e) == if e.task.Some? && e.task.value in s.tasks && s.tasks[e.task.value].status in {Claimed, Running}
                                    then s.(tasks := s.tasks[e.task.value := s.tasks[e.task.value].(status := Queued)], events := s.events + 1)
                                    else s
      ensures e.kind == ProjectIdle ==>
                var key := Emissions.Key(e.project, "project.idle.notified", s.now / s.window);
                AfterEvent(s, e) == if e.project != "" && key !in s.keys
                                    then s.(keys := s.keys + {key}, won := s.won + {key}, events := s.events + 1) else s
      ensures e.kind == DependencyUnblocked ==> AfterEvent(s, e) == s
    {
      assert !e.kind.Inert? ==> AfterEvent(s, e) == AfterWorker(s, e);
    }

    /** One rule with one action, on an event whose worker does nothing: the action creates its task,
        one deeper, under the task of the event unless it names no parent, and two events tell of it. */
    lemma RuleActs(s: State, e: Event, rule: Rule, action: Action, t: nat)
      requires rules == [rule] && rule.actions == [action] && rule.enabled && rule.trigger == e.kind == DependencyUnblocked
      requires e.task == Some(t) && t in s.tasks && s.tasks[t].depth + 1 <= maxDepth
      requires action.createTask && world.render(action.instructions, e, t) != ""
      requires !Copied(s.tasks, ChildRow(action, e, t, s.tasks[t], 0))
      ensures AfterEvent(s, e)
           == s.(tasks := s.tasks[s.next := Row(s.tasks[t].project, if action.parentNone then None else Some(t),
                                                RenderTitle(action, e, t), Queued, s.tasks[t].depth + 1)],
                 next := s.next + 1, events := s.events + 2)
    {
      var none: seq<Rule>, idle: seq<Action> := [], [];
      assert [rule][..0] == none && [action][..0] == idle;
      var s1 := WithEvent(s);
      assert AfterActions(s1, rule.actions, e, t, s.tasks[t]) == AfterAction(s1, action, e, t, s.tasks[t]) by {
        assert AfterActions(s1, idle, e, t, s.tasks[t]) == s1;
      }
      assert AfterRules(s, rules, e, t, s.tasks[t]) == AfterActions(s1, rule.actions, e, t, s.tasks[t]) by {
        assert AfterRules(s, none, e, t, s.tasks[t]) == s;
      }
      assert AfterWorker(s, e) == s;
    }

    /** The same action twice, with a title and a parent: the second finds the task of the first. */
    lemma TwinActions(s: State, e: Event, action: Action, t: nat, task: Row)
      requires action.createTask && world.render(action.instructions, e, t) != "" && !action.parentNone
      requires RenderTitle(action, e, t).Some? && s.next !in s.tasks
      ensures AfterActions(s, [action, action], e, t, task) == AfterAction(s, action, e, t, task)
    {
      var idle: seq<Action> := [];
      assert [action, action][..1] == [action] && [action][..0] == idle;
      var s1 := AfterAction(s, action, e, t, task);
      assert AfterActions(s, [action], e, t, task) == s1 by { assert AfterActions(s, idle, e, t, task) == s; }
      var r := ChildRow(action, e, t, task, 0);
      assert Copied(s1.tasks, r) by {
        if !Copied(s.tasks, r) {
          assert s.next in s1.tasks && SameFollowUp(s1.tasks[s.next], Row(r.project, Some(r.parent.value), Some(r.title.value), Queued, 0));
        }
      }
    }

    function ChildRow(action: Action, e: Event, t: nat, task: Row, depth: nat): Row {
      Row(task.project, if action.parentNone then None else Some(t), RenderTitle(action, e, t), Queued, depth)
    }

    function RenderTitle(action: Action, e: Event, t: nat): Option<string> {
      if action.title.Some? && world.render(action.title.value, e, t) != ""
      then Some(world.render(action.title.value, e, t)) else None
    }

    /** The rule's circuit counts the failure; when that opens it, an operator is called. */
    method ActionFailed(rule: Rule, t: nat, project: string)
      requires Valid()
      modifies `tasks, `nextTask, `stored, `now, `asked, `origin, `guarded, `taken, `unblocked, breaker, emissions
      ensures unblocked == old(unblocked)
      ensures Valid() && Grows(old(tasks), tasks) && Appended(old(stored), 2) && taken == old(taken)
      ensures breaker.EntryOf(rule.name).failures == old(breaker.EntryOf(rule.name)).failures + 1
      ensures old(breaker.EntryOf(rule.name)).state == CircuitBreaker.Open ==> tasks == old(tasks) && stored == old(stored)
      decreases 0, 8
    {
      var clock := Clock();
      var justOpened := breaker.RecordFailure(rule.name, clock);
      if justOpened {
        Notify("automation.circuit_opened", project);
        CreateOperatorTask(project, t, ESCALATION);
      }
    }

    /** An escalation or review task; its depth stays 0. */
    method CreateOperatorTask(project: string, parent: nat, title: string)
      requires Valid()
      modifies `tasks, `nextTask, `stored, `now, `asked, `origin, `guarded, `taken, `unblocked, breaker, emissions
      ensures unblocked == old(unblocked)
      ensures Valid() && Grows(old(tasks), tasks) && Appended(old(stored), 1) && breaker.states == old(breaker.states)
      ensures taken == old(taken)
      ensures Calm() ==> View() == WithTask(old(View()), Row(project, Some(parent), Some(title), Queued, 0))
      ensures tasks == old(tasks)[old(nextTask) := Row(project, Some(parent), Some(title), Queued, 0)]
              || (tasks == old(tasks) && !Calm())
      decreases 0, 7
    {
      var child := CreateTask(project, Some(parent), Some(title));
      if child.Some? {
        Notify("task.created", project);
      }
    }

    // ----- the built-in workers -----

    /** The failed task exists, is not too deep, has had no follow-up in this window, and no open
        copy of the follow-up is stored. */
    ghost predicate FollowUpDue(e: Event)
      reads this, emissions
    {
      && e.task.Some? && e.task.value in tasks && tasks[e.task.value].depth < MAX_FOLLOW_UP_DEPTH
      && Due(tasks[e.task.value].project, FollowUpKind(e.task.value)) && !Copied(tasks, FollowUpRow(tasks, e.task.value))
    }

    /** run.failed and task.failed: one follow-up per task and window, three deep at most. */
    method ProcessRunFailed(e: Event)
      requires Valid()
      modifies `tasks, `nextTask, `stored, `now, `asked, `origin, `guarded, `taken, `unblocked, breaker, emissions
      ensures unblocked == old(unblocked)
      ensures Valid() && Grows(old(tasks), tasks) && Appended(old(stored), 1) && old(taken) <= taken
      ensures tasks != old(tasks) ==>
                && e.task.Some? && e.task.value in old(tasks) && old(tasks)[e.task.value].depth < MAX_FOLLOW_UP_DEPTH
                && Won(old(taken), taken, old(tasks)[e.task.value].project, FollowUpKind(e.task.value))
      ensures Calm() ==> tasks == if old(FollowUpDue(e)) then old(tasks)[old(nextTask) := FollowUpRow(old(tasks), e.task.value)] else old(tasks)
      ensures Calm() ==> View() == AfterFailure(old(View()), e)
      ensures breaker.states == old(breaker.states)
      decreases 0, 8
    {
      var failed := Ask();
      if e.task == None || e.task.value !in tasks || failed > 0 {
        return;
      }
      var t := e.task.value;
      var task := tasks[t];
      if task.depth >= MAX_FOLLOW_UP_DEPTH {
        return;
      }
      var recorded := TryRecordEmission(task.project, FollowUpKind(t));
      if !recorded {
        return;
      }
      FollowUp(t, task);
    }

    /** The follow-up of a failed task, unless an open copy is found. */
    method FollowUp(t: nat, task: Row)
      requires Valid() && t in tasks && task == tasks[t] && task.depth < MAX_FOLLOW_UP_DEPTH
      modifies `tasks, `nextTask, `stored, `now, `asked, `origin, `guarded, `taken, `unblocked, breaker, emissions
      ensures Valid() && Grows(old(tasks), tasks) && Appended(old(stored), 1) && taken == old(taken) && unblocked == old(unblocked)
      ensures Calm() ==> View() == if Copied(old(tasks), FollowUpRow(old(tasks), t)) then old(View())
                                   else WithTask(old(View()), FollowUpRow(old(tasks), t))
      ensures breaker.states == old(breaker.states)
      decreases 0, 7
    {
      var title := FollowUpTitle(t, task);
      var found, unanswered := IsFollowUpDuplicate(task.project, t, title);
      if found {
        return;
      }
      var child := CreateFollowUp(task.project, Some(t), Some(title), t, task.depth + 1, !unanswered);
      if child.Some? {
        Notify("task.created", task.project);
      }
    }

    /** task.completed: an event for every waiting dependent whose dependencies have all
        succeeded. */
    method ProcessTaskCompleted(e: Event)
      requires Valid() && e.kind == TaskCompleted
      modifies `tasks, `nextTask, `stored, `now, `asked, `origin, `guarded, `taken, `unblocked, breaker, emissions
      ensures Valid() && Grows(old(tasks), tasks)
      ensures Appended(old(stored), old(DependentCount(e)) * (1 + Quota())) && old(taken) <= taken
      ensures old(unblocked) <= unblocked && (e.task.None? ==> unblocked == old(unblocked))
      ensures e.task.Some? && old(DependenciesExist()) ==>
                Notified(unblocked[|old(unblocked)|..], ReadyIn(dependencies, old(tasks), old(Dependents(e.task.value))), Calm())
      ensures old(Undisturbed()) ==> Undisturbed() && View() == AfterWorker(old(View()), e)
      decreases Rank(e.kind), 1
    {
      if e.task == None {
        return;
      }
      var failed := Ask();
      if failed > 0 {
        return;
      }
      var dependents := Dependents(e.task.value);
      DependentsExist(dependencies, tasks.Keys, e.task.value);
      NotifyDependents(dependents);
    }

    method NotifyDependents(dependents: seq<nat>)
      requires Valid() && forall i :: 0 <= i < |dependents| ==> dependents[i] in tasks
      modifies `tasks, `nextTask, `stored, `now, `asked, `origin, `guarded, `taken, `unblocked, breaker, emissions
      ensures Valid() && Grows(old(tasks), tasks)
      ensures Appended(old(stored), |dependents| * (1 + Quota())) && old(taken) <= taken && old(unblocked) <= unblocked
      ensures old(DependenciesExist()) ==>
                Notified(unblocked[|old(unblocked)|..], ReadyIn(dependencies, old(tasks), dependents), Calm())
      ensures old(Undisturbed()) ==> Undisturbed() && View() == AfterDependents(old(View()), old(tasks), dependents)
      decreases 2, 0
    {
      var snapshot := tasks;
      assert unblocked[|old(unblocked)|..] == [];
      var i := 0;
      while i < |dependents|
        invariant i <= |dependents| && Valid() && Grows(old(tasks), tasks)
        invariant Appended(old(stored), i * (1 + Quota())) && old(taken) <= taken && old(unblocked) <= unblocked
        invariant old(DependenciesExist()) ==>
                    Notified(unblocked[|old(unblocked)|..], ReadyIn(dependencies, snapshot, dependents[..i]), Calm())
        invariant old(Undisturbed()) ==> Undisturbed() && View() == AfterDependents(old(View()), snapshot, dependents[..i])
      {
        label Before:
        CheckDependent(dependents[i], snapshot[dependents[i]]);
        GrowsTwice(old(tasks), old@Before(tasks), tasks);
        OneMoreTime(i, 1 + Quota());
        assert dependents[..i + 1][..i] == dependents[..i];
        if old(DependenciesExist()) {
          OneMore(dependencies, snapshot, old@Before(tasks), dependents, i, old(unblocked), old@Before(unblocked), unblocked, Calm());
        }
        i := i + 1;
      }
      assert dependents[..i] == dependents;
    }

    /** One dependent, as it was when the list was read. */
    method CheckDependent(d: nat, row: Row)
      requires Valid()
      modifies `tasks, `nextTask, `stored, `now, `asked, `origin, `guarded, `taken, `unblocked, breaker, emissions
      ensures Valid() && Grows(old(tasks), tasks) && Appended(old(stored), 1 + Quota()) && old(taken) <= taken
      ensures Calm() && Waits(row) && old(Fulfilled(d)) ==> old(stored) < stored && unblocked == old(unblocked) + [d]
      ensures !Waits(row) || !old(Fulfilled(d)) ==>
                tasks == old(tasks) && stored == old(stored) && unblocked == old(unblocked)
      ensures unblocked == old(unblocked) || (unblocked == old(unblocked) + [d] && old(stored) < stored)
      ensures old(Undisturbed()) ==>
                Undisturbed()
                && View() == if Waits(row) && old(Fulfilled(d))
                             then Unblocked(AfterEvent(WithEvent(old(View())), Event(DependencyUnblocked, row.project, Some(d), "")), d)
                             else old(View())
      decreases 1, 6
    {
      if TerminalV2(row.status) || row.status == Claimed || row.status == Running {
        return;
      }
      var failed := Ask();
      if failed == 0 && Fulfilled(d) {
        var ok := CreateEvent(Event(DependencyUnblocked, row.project, Some(d), ""));
        if ok {
          unblocked := unblocked + [d];
        }
      }
    }

    predicate Fulfilled(t: nat)
      reads this
    {
      AllSucceeded(dependencies, tasks, t)
    }

    /** Every dependency is on a stored task. */
    ghost predicate DependenciesExist()
      reads this
    {
      forall i :: 0 <= i < |dependencies| ==> dependencies[i].1 in tasks
    }

    method ProcessRepoChanged(e: Event)
      requires Valid() && e.kind == RepoChanged
      modifies `tasks, `nextTask, `stored, `now, `asked, `origin, `guarded, `taken, `unblocked, breaker, emissions
      ensures unblocked == old(unblocked)
      ensures Valid() && Grows(old(tasks), tasks) && Appended(old(stored), Worst(RepoScanned, Quota(), 0)) && old(taken) <= taken
      ensures old(stored) < stored ==> e.project != "" && Won(old(taken), taken, e.project, "repo.scanned")
      ensures Calm() ==> (old(stored) < stored <==> e.project != "" && old(Due(e.project, "repo.scanned")))
      ensures old(Undisturbed()) ==> Undisturbed() && View() == AfterWorker(old(View()), e)
      decreases Rank(e.kind), 1
    {
      if e.project == "" {
        return;
      }
      var recorded := TryRecordEmission(e.project, "repo.scanned");
      if recorded {
        var _ := CreateEvent(Chained(RepoScanned, e));
      }
    }

    /** repo.scanned, after the files have been walked, and memory.created. */
    method EmitContextInvalidated(e: Event)
      requires Valid() && Rank(e.kind) == 2
      modifies `tasks, `nextTask, `stored, `now, `asked, `origin, `guarded, `taken, `unblocked, breaker, emissions
      ensures unblocked == old(unblocked)
      ensures Valid() && Grows(old(tasks), tasks) && Appended(old(stored), Worst(ContextInvalidated, Quota(), 0)) && old(taken) <= taken
      ensures old(stored) < stored ==> e.project != "" && Won(old(taken), taken, e.project, "context.invalidated")
      ensures Calm() ==> (old(stored) < stored <==> e.project != "" && old(Due(e.project, "context.invalidated")))
      ensures old(Undisturbed()) ==>
                Undisturbed() && View() == AfterChain(old(View()), "context.invalidated", ContextInvalidated, e)
      decreases Rank(e.kind), 0
    {
      if e.project == "" {
        return;
      }
      var recorded := TryRecordEmission(e.project, "context.invalidated");
      if recorded {
        var _ := CreateEvent(Chained(ContextInvalidated, e));
      }
    }

    method ProcessMemoryCreated(e: Event)
      requires Valid() && e.kind == MemoryCreated
      modifies `tasks, `nextTask, `stored, `now, `asked, `origin, `guarded, `taken, `unblocked, breaker, emissions
      ensures unblocked == old(unblocked)
      ensures Valid() && Grows(old(tasks), tasks) && Appended(old(stored), Worst(ContextInvalidated, Quota(), 0)) && old(taken) <= taken
      ensures old(stored) < stored ==> Won(old(taken), taken, e.project, "context.invalidated")
      ensures !Relevant(e.scope) ==> tasks == old(tasks) && stored == old(stored)
      ensures Calm() && Relevant(e.scope) ==> (old(stored) < stored <==> e.project != "" && old(Due(e.project, "context.invalidated")))
      ensures old(Undisturbed()) ==> Undisturbed() && View() == AfterWorker(old(View()), e)
      decreases Rank(e.kind), 1
    {
      if e.project != "" && Relevant(e.scope) {
        EmitContextInvalidated(e);
      }
    }

    method ProcessContextInvalidated(e: Event)
      requires Valid()
      modifies `tasks, `nextTask, `stored, `now, `asked, `origin, `guarded, `taken, `unblocked, breaker, emissions
      ensures unblocked == old(unblocked)
      ensures Valid() && Grows(old(tasks), tasks) && Appended(old(stored), 1) && old(taken) <= taken
      ensures tasks == old(tasks) || (e.project != "" && Won(old(taken), taken, e.project, "context.refresh.queued")
                                      && tasks == old(tasks)[old(nextTask) := RefreshRow(e.project)])
      ensures Calm() ==> tasks == if e.project != "" && old(Due(e.project, "context.refresh.queued"))
                                  then old(tasks)[old(nextTask) := RefreshRow(e.project)] else old(tasks)
      ensures Calm() && e.kind == ContextInvalidated ==> View() == AfterWorker(old(View()), e)
      ensures breaker.states == old(breaker.states)
      decreases 0, 8
    {
      if e.project == "" {
        return;
      }
      var recorded := TryRecordEmission(e.project, "context.refresh.queued");
      if !recorded {
        return;
      }
      var child := CreateTask(e.project, None, RefreshRow(e.project).title);
      if child.Some? {
        Notify("task.created", e.project);
      }
    }

    ghost predicate Requeues(e: Event)
      reads this
    {
      e.task.Some? && e.task.value in tasks && tasks[e.task.value].status in {Claimed, Running}
    }

    method ProcessLeaseExpired(e: Event)
      requires Valid()
      modifies `tasks, `nextTask, `stored, `now, `asked, `origin, `guarded, `taken, `unblocked, breaker, emissions
      ensures unblocked == old(unblocked)
      ensures Valid() && Grows(old(tasks), tasks) && Appended(old(stored), 1) && old(taken) <= taken
      ensures tasks == (if old(Requeues(e)) then old(tasks)[e.task.value := old(tasks)[e.task.value].(status := Queued)] else old(tasks))
              || (tasks == old(tasks) && !Calm())
      ensures Calm() && old(Requeues(e)) ==> old(stored) < stored
      ensures Calm() && e.kind == LeaseExpired ==> View() == AfterWorker(old(View()), e)
      ensures nextTask == old(nextTask) && breaker.states == old(breaker.states)
      decreases 0, 8
    {
      var failed := Ask();
      if e.task == None || e.task.value !in tasks || failed > 0 {
        return;
      }
      var t := e.task.value;
      if tasks[t].status != Claimed && tasks[t].status != Running {
        return;
      }
      failed := Ask();
      if failed > 0 {
        return;
      }
      StatusKeepsSound(tasks, nextTask, origin, guarded, Limit(), t, Queued);
      tasks := tasks[t := tasks[t].(status := Queued)];
      Notify("task.requeued", tasks[t].project);
    }

    method ProcessProjectIdle(e: Event)
      requires Valid()
      modifies `tasks, `nextTask, `stored, `now, `asked, `origin, `guarded, `taken, `unblocked, breaker, emissions
      ensures unblocked == old(unblocked)
      ensures Valid() && Appended(old(stored), 1) && tasks == old(tasks) && nextTask == old(nextTask) && old(taken) <= taken
      ensures breaker.states == old(breaker.states)
      ensures old(stored) < stored ==> e.project != "" && Won(old(taken), taken, e.project, "project.idle.notified")
      ensures Calm() ==> (old(stored) < stored <==> e.project != "" && old(Due(e.project, "project.idle.notified")))
      ensures Calm() && e.kind == ProjectIdle ==> View() == AfterWorker(old(View()), e)
      decreases 0, 8
    {
      if e.project == "" {
        return;
      }
      var recorded := TryRecordEmission(e.project, "project.idle.notified");
      if recorded {
        Notify("notification", e.project);
      }
    }
  }

  ghost predicate AllClosed(states: map<string, CircuitBreaker.Entry>) {
    forall name :: name in states ==> states[name].state == CircuitBreaker.Closed
  }

  /** The entry of the rule after a success. */
  function Succeed(states: map<string, CircuitBreaker.Entry>, name: string): map<string, CircuitBreaker.Entry> {
    states[name := (if name in states then states[name] else CircuitBreaker.FRESH).(state := CircuitBreaker.Closed, failures := 0)]
  }

  /** Nothing but the number of events and the clock has changed. */
  ghost predicate Untouched(s: State, s': State) {
    s' == s.(events := s'.events, now := s'.now)
  }

  /** One more key of this project and kind has been won: the first emission of its window. */
  ghost predicate Won(a: set<Emissions.Key>, b: set<Emissions.Key>, project: string, kind: string) {
    exists k :: k in b && k !in a && k.project == project && k.kind == kind
  }

  predicate Relevant(scope: string) {
    scope == "convention" || scope == "constraint" || scope == "fix_pattern"
  }

  function RefreshRow(project: string): Row {
    Row(project, None, Some("Refresh project context"), Queued, 0)
  }

  const ESCALATION := "Automation Escalation: Review Required"
  const LIMITS_EXCEEDED := "Automation Review: Limits Exceeded"

  function EscalationOf(tasks: map<nat, Row>, t: nat): Row
    requires t in tasks
  {
    Row(tasks[t].project, Some(t), Some(ESCALATION), Queued, 0)
  }

  function FollowUpRow(tasks: map<nat, Row>, t: nat): Row
    requires t in tasks
  {
    Row(tasks[t].project, Some(t), Some(FollowUpTitle(t, tasks[t])), Queued, tasks[t].depth + 1)
  }

  /** The row has a parent and a title, and an open copy of it is stored. */
  predicate Copied(tasks: map<nat, Row>, r: Row) {
    r.parent.Some? && r.title.Some? && Duplicate(tasks, r.project, r.parent.value, r.title.value)
  }

  lemma OneMoreTime(i: nat, q: int)
    ensures (i + 1) * q == i * q + q
  {
  }

  predicate Waits(row: Row) {
    !TerminalV2(row.status) && row.status != Claimed && row.status != Running
  }

  predicate AllSucceeded(rows: seq<(nat, nat)>, tasks: map<nat, Row>, t: nat) {
    forall i :: 0 <= i < |rows| && rows[i].0 == t && rows[i].1 in tasks ==> tasks[rows[i].1].status == Succeeded
  }

  /** Of the dependents those that wait and whose dependencies have all succeeded. */
  function ReadyIn(rows: seq<(nat, nat)>, tasks: map<nat, Row>, ds: seq<nat>): seq<nat> {
    if ds == [] then []
    else
      var d := ds[|ds| - 1];
      ReadyIn(rows, tasks, ds[..|ds| - 1])
      + if d in tasks && Waits(tasks[d]) && AllSucceeded(rows, tasks, d) then [d] else []
  }

  /** The ready dependents of `t` are the stored tasks that depend on it, that are neither over nor
      claimed nor running, and all of whose stored dependencies have succeeded. */
  lemma ReadyAre(rows: seq<(nat, nat)>, tasks: map<nat, Row>, t: nat, d: nat)
    ensures d in ReadyIn(rows, tasks, DependentsIn(rows, tasks.Keys, t))
            <==> && d in tasks && tasks[d].status !in {Succeeded, Failed, Cancelled, Claimed, Running} && (d, t) in rows
                 && forall u :: (d, u) in rows && u in tasks ==> tasks[u].status == Succeeded
  {
    DependentsAre(rows, tasks.Keys, t, d);
    ReadyAmong(rows, tasks, DependentsIn(rows, tasks.Keys, t), d);
    if d in tasks && AllSucceeded(rows, tasks, d) {
      forall u | (d, u) in rows && u in tasks ensures tasks[u].status == Succeeded {
        var i :| 0 <= i < |rows| && rows[i] == (d, u);
      }
    }
    if forall u :: (d, u) in rows && u in tasks ==> tasks[u].status == Succeeded {
      forall i | 0 <= i < |rows| && rows[i].0 == d && rows[i].1 in tasks ensures tasks[rows[i].1].status == Succeeded {
        assert rows[i] == (d, rows[i].1);
      }
    }
  }

  lemma {:induction false} DependentsAre(rows: seq<(nat, nat)>, existing: set<nat>, t: nat, d: nat)
    ensures d in DependentsIn(rows, existing, t) <==> d in existing && (d, t) in rows
    decreases |rows|
  {
    if rows != [] {
      var prefix, r := rows[..|rows| - 1], rows[|rows| - 1];
      DependentsAre(prefix, existing, t, d);
      assert rows == prefix + [r];
      assert (d, t) in rows <==> (d, t) in prefix || r == (d, t);
    }
  }

  lemma {:induction false} ReadyAmong(rows: seq<(nat, nat)>, tasks: map<nat, Row>, ds: seq<nat>, d: nat)
    ensures d in ReadyIn(rows, tasks, ds) <==> d in ds && d in tasks && Waits(tasks[d]) && AllSucceeded(rows, tasks, d)
    decreases |ds|
  {
    if ds != [] {
      var prefix, last := ds[..|ds| - 1], ds[|ds| - 1];
      ReadyAmong(rows, tasks, prefix, d);
      assert ds == prefix + [last];
    }
  }

  /** Only ready tasks are notified, and all of them, in order, if nothing disturbs. */
  ghost predicate Notified(more: seq<nat>, ready: seq<nat>, calm: bool) {
    (calm ==> more == ready) && forall k :: 0 <= k < |more| ==> more[k] in ready
  }

  /** One more dependent has been looked at: `u0`, `u1` and `u2` are the notified tasks at the
      start, before and after that. */
  lemma OneMore(rows: seq<(nat, nat)>, a: map<nat, Row>, b: map<nat, Row>, ds: seq<nat>, i: nat,
                u0: seq<nat>, u1: seq<nat>, u2: seq<nat>, calm: bool)
    requires Grows(a, b) && (forall k :: 0 <= k < |rows| ==> rows[k].1 in a) && i < |ds| && ds[i] in a
    requires u0 <= u1 && Notified(u1[|u0|..], ReadyIn(rows, a, ds[..i]), calm)
    requires u2 == u1 || u2 == u1 + [ds[i]]
    requires !Waits(a[ds[i]]) || !AllSucceeded(rows, b, ds[i]) ==> u2 == u1
    requires calm && Waits(a[ds[i]]) && AllSucceeded(rows, b, ds[i]) ==> u2 == u1 + [ds[i]]
    ensures Notified(u2[|u0|..], ReadyIn(rows, a, ds[..i + 1]), calm)
  {
    SucceededStays(rows, a, b, ds[i]);
    assert ds[..i + 1][..i] == ds[..i];
    var d := if Waits(a[ds[i]]) && AllSucceeded(rows, a, ds[i]) then [ds[i]] else [];
    var ok := if u2 == u1 then [] else [ds[i]];
    assert u2[|u0|..] == u1[|u0|..] + ok;
    NotifiedMore(u1[|u0|..], ReadyIn(rows, a, ds[..i]), d, ok, calm);
  }

  lemma NotifiedMore(more: seq<nat>, ready: seq<nat>, d: seq<nat>, ok: seq<nat>, calm: bool)
    requires Notified(more, ready, calm) && (ok == [] || ok == d) && (calm ==> ok == d)
    ensures Notified(more + ok, ready + d, calm)
  {
    forall k | 0 <= k < |more + ok| ensures (more + ok)[k] in ready + d {
      if k < |more| {
        assert more[k] in ready;
      } else {
        assert (more + ok)[k] == d[k - |more|];
      }
    }
  }

  /** Whether all dependencies have succeeded does not change while events are processed. */
  lemma SucceededStays(rows: seq<(nat, nat)>, a: map<nat, Row>, b: map<nat, Row>, t: nat)
    requires Grows(a, b) && forall i :: 0 <= i < |rows| ==> rows[i].1 in a
    ensures AllSucceeded(rows, a, t) == AllSucceeded(rows, b, t)
  {
    forall i | 0 <= i < |rows| ensures rows[i].1 in b && (a[rows[i].1].status == Succeeded <==> b[rows[i].1].status == Succeeded) {
      assert Kept(a, b, rows[i].1);
    }
  }

  function DependentsIn(rows: seq<(nat, nat)>, existing: set<nat>, t: nat): seq<nat> {
    if rows == [] then []
    else
      var r := rows[|rows| - 1];
      DependentsIn(rows[..|rows| - 1], existing, t) + if r.1 == t && r.0 in existing then [r.0] else []
  }

  lemma {:induction false} DependentsExist(rows: seq<(nat, nat)>, existing: set<nat>, t: nat)
    ensures forall i :: 0 <= i < |DependentsIn(rows, existing, t)| ==> DependentsIn(rows, existing, t)[i] in existing
    decreases |rows|
  {
    if rows != [] {
      DependentsExist(rows[..|rows| - 1], existing, t);
    }
  }

  lemma GrowsTwice(a: map<nat, Row>, b: map<nat, Row>, c: map<nat, Row>)
    requires Grows(a, b) && Grows(b, c)
    ensures Grows(a, c)
  {
    forall t ensures Kept(a, c, t) {
      assert Kept(a, b, t) && Kept(b, c, t);
    }
  }

  /** Any status write that does not reopen a task. */
  lemma StatusKeepsSound(tasks: map<nat, Row>, nextTask: nat, origin: map<nat, nat>, guarded: set<nat>, limit: int, t: nat, status: StatusV2)
    requires Sound(tasks, nextTask, origin, guarded, limit) && t in tasks && (IsOpen(tasks[t]) || TerminalV2(status))
    ensures Sound(tasks[t := tasks[t].(status := status)], nextTask, origin, guarded, limit)
  {
    var b := tasks[t := tasks[t].(status := status)];
    forall u ensures DepthOk(b, origin, limit, u) {
      assert DepthOk(tasks, origin, limit, u);
    }
    forall u, v | Clash(b, guarded, u, v) ensures u == v {
      assert Clash(tasks, guarded, u, v);
    }
  }
}
