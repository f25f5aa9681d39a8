/** Project import: tasks are created one by one under new identifiers, and parents are found
    through a map from old identifiers to new ones. */
module Import {
  import opened Options

  /** The copied fields. Status, output and automation depth are not copied. */
  datatype Body = Body(instructions: string, title: Option<string>, kind: string, priority: int, tags: seq<string>)

  datatype ArchivedTask = ArchivedTask(id: int, parent: Option<int>, body: Body)

  datatype Row = Row(project: string, parent: Option<nat>, body: Body)

  /** The task table, the identifier map, and the new identifier of each archived task that could
      be created. */
  datatype State = State(tasks: map<nat, Row>, next: nat, idMap: map<int, nat>, newIds: seq<Option<nat>>)

  /** Which insertions succeed, and how many identifiers other sessions take before each. */
  datatype World = World(creates: nat -> bool, skips: nat -> nat)

  function MappedParent(s: State, a: ArchivedTask): Option<nat> {
    if a.parent.Some? && a.parent.value in s.idMap then Some(s.idMap[a.parent.value]) else None
  }

  function Step(s: State, a: ArchivedTask, project: string, ok: bool, skip: nat): State {
    if !ok then s.(newIds := s.newIds + [None])
    else
      var t := s.next + skip;
      State(s.tasks[t := Row(project, MappedParent(s, a), a.body)], t + 1, s.idMap[a.id := t], s.newIds + [Some(t)])
  }

  /** The state after the first `n` archived tasks. */
  function Run(tasks: map<nat, Row>, next: nat, archive: seq<ArchivedTask>, project: string, w: World, n: nat): State
    requires n <= |archive|
  {
    if n == 0 then State(tasks, next, map[], [])
    else Step(Run(tasks, next, archive, project, w, n - 1), archive[n - 1], project, w.creates(n - 1), w.skips(n - 1))
  }

  class Database {
    var tasks: map<nat, Row>
    var next: nat

    constructor ()
      ensures tasks == map[] && next == 1
    {
      tasks, next := map[], 1;
    }

    method CreateTask(project: string, parent: Option<nat>, body: Body, ok: bool, skip: nat) returns (t: Option<nat>)
      modifies this
      ensures !ok ==> t == None && tasks == old(tasks) && next == old(next)
      ensures ok ==> t == Some(old(next) + skip) && tasks == old(tasks)[t.value := Row(project, parent, body)] && next == t.value + 1
    {
      if !ok {
        return None;
      }
      t := Some(next + skip);
      tasks := tasks[t.value := Row(project, parent, body)];
      next := t.value + 1;
    }

    method ImportTasks(archive: seq<ArchivedTask>, project: string, w: World)
      returns (taskIDMap: map<int, nat>, tasksImported: nat, ghost newIds: seq<Option<nat>>)
      modifies this
      ensures State(tasks, next, taskIDMap, newIds) == Run(old(tasks), old(next), archive, project, w, |archive|)
      ensures tasksImported == Created(newIds)
    {
      taskIDMap, tasksImported, newIds := map[], 0, [];
      for i := 0 to |archive|
        invariant State(tasks, next, taskIDMap, newIds) == Run(old(tasks), old(next), archive, project, w, i)
        invariant tasksImported == Created(newIds)
      {
        var task := archive[i];
        var parentID: Option<nat> := None;
        if task.parent.Some? {
          if task.parent.value in taskIDMap {
            parentID := Some(taskIDMap[task.parent.value]);
          }
        }
        var t := CreateTask(project, parentID, task.body, w.creates(i), w.skips(i));
        CreatedSnoc(newIds, t);
        newIds := newIds + [t];
        if t == None {
          continue;
        }
        taskIDMap := taskIDMap[task.id := t.value];
        tasksImported := tasksImported + 1;
      }
    }
  }

  function Created(newIds: seq<Option<nat>>): nat {
    if newIds == [] then 0 else Created(newIds[..|newIds| - 1]) + if newIds[|newIds| - 1].Some? then 1 else 0
  }

  lemma CreatedSnoc(newIds: seq<Option<nat>>, t: Option<nat>)
    ensures Created(newIds + [t]) == Created(newIds) + if t.Some? then 1 else 0
  {
    assert (newIds + [t])[..|newIds|] == newIds;
  }

  // ----- what an import makes of an archive -----

  /** The last of the first `n` archived tasks with this identifier that was created, or -1. */
  function Latest(archive: seq<ArchivedTask>, newIds: seq<Option<nat>>, id: int, n: nat): (j: int)
    requires n <= |archive| && n <= |newIds|
    ensures -1 <= j < n && (j >= 0 ==> archive[j].id == id && newIds[j].Some?)
    ensures forall k :: j < k < n ==> !(archive[k].id == id && newIds[k].Some?)
  {
    if n == 0 then -1
    else if archive[n - 1].id == id && newIds[n - 1].Some? then n - 1
    else Latest(archive, newIds, id, n - 1)
  }

  /** The new parent of archived task `i`: the image of the latest earlier task with its parent's
      identifier. */
  function ImageParent(archive: seq<ArchivedTask>, newIds: seq<Option<nat>>, i: nat): Option<nat>
    requires i < |archive| && i <= |newIds|
  {
    if archive[i].parent == None then None
    else
      var j := Latest(archive, newIds, archive[i].parent.value, i);
      if j < 0 then None else newIds[j]
  }

  ghost predicate MapOk(s: State, archive: seq<ArchivedTask>, n: nat)
    requires n <= |archive| && n <= |s.newIds|
  {
    forall q: int :: if Latest(archive, s.newIds, q, n) < 0 then q !in s.idMap
                     else q in s.idMap && s.newIds[Latest(archive, s.newIds, q, n)] == Some(s.idMap[q])
  }

  ghost predicate RowOk(s: State, archive: seq<ArchivedTask>, project: string, low: nat, i: nat)
    requires i < |archive| && i < |s.newIds|
  {
    s.newIds[i].Some? ==>
      && low <= s.newIds[i].value < s.next && s.newIds[i].value in s.tasks
      && s.tasks[s.newIds[i].value] == Row(project, ImageParent(archive, s.newIds, i), archive[i].body)
  }

  ghost predicate Ascending(newIds: seq<Option<nat>>) {
    forall i, j :: 0 <= i < j < |newIds| && newIds[i].Some? && newIds[j].Some? ==> newIds[i].value < newIds[j].value
  }

  lemma {:induction false} LatestPrefix(archive: seq<ArchivedTask>, a: seq<Option<nat>>, b: seq<Option<nat>>, id: int, n: nat)
    requires n <= |archive| && n <= |a| && n <= |b| && a[..n] == b[..n]
    ensures Latest(archive, a, id, n) == Latest(archive, b, id, n)
    decreases n
  {
    if n > 0 {
      assert a[n - 1] == a[..n][n - 1] == b[..n][n - 1] == b[n - 1];
      assert a[..n - 1] == a[..n][..n - 1] && b[..n - 1] == b[..n][..n - 1];
      LatestPrefix(archive, a, b, id, n - 1);
    }
  }

  ghost predicate ImportOk(s: State, archive: seq<ArchivedTask>, project: string, low: nat, n: nat) {
    && n <= |archive| && |s.newIds| == n && low <= s.next && MapOk(s, archive, n) && Ascending(s.newIds)
    && (forall i :: 0 <= i < n ==> RowOk(s, archive, project, low, i))
  }

  lemma StepKeepsMap(s: State, archive: seq<ArchivedTask>, project: string, n: nat, ok: bool, skip: nat)
    requires n < |archive| && |s.newIds| == n && MapOk(s, archive, n)
    ensures MapOk(Step(s, archive[n], project, ok, skip), archive, n + 1)
  {
    var s' := Step(s, archive[n], project, ok, skip);
    assert s'.newIds[..n] == s.newIds[..n];
    forall q: int ensures if Latest(archive, s'.newIds, q, n + 1) < 0 then q !in s'.idMap
                          else q in s'.idMap && s'.newIds[Latest(archive, s'.newIds, q, n + 1)] == Some(s'.idMap[q])
    {
      LatestPrefix(archive, s.newIds, s'.newIds, q, n);
    }
  }

  lemma StepKeepsRow(s: State, archive: seq<ArchivedTask>, project: string, low: nat, n: nat, ok: bool, skip: nat, i: nat)
    requires ImportOk(s, archive, project, low, n) && n < |archive| && i < n
    ensures RowOk(Step(s, archive[n], project, ok, skip), archive, project, low, i)
  {
    var s' := Step(s, archive[n], project, ok, skip);
    assert RowOk(s, archive, project, low, i);
    assert s'.newIds[i] == s.newIds[i];
    SameImage(archive, s.newIds, s'.newIds, i);
  }

  lemma SameImage(archive: seq<ArchivedTask>, a: seq<Option<nat>>, b: seq<Option<nat>>, i: nat)
    requires i < |archive| && i <= |a| && a <= b
    ensures ImageParent(archive, a, i) == ImageParent(archive, b, i)
  {
    if archive[i].parent.Some? {
      assert a[..i] == b[..i];
      LatestPrefix(archive, a, b, archive[i].parent.value, i);
    }
  }

  lemma StepMakesRow(s: State, archive: seq<ArchivedTask>, project: string, low: nat, n: nat, ok: bool, skip: nat)
    requires ImportOk(s, archive, project, low, n) && n < |archive|
    ensures RowOk(Step(s, archive[n], project, ok, skip), archive, project, low, n)
  {
    var s' := Step(s, archive[n], project, ok, skip);
    SameImage(archive, s.newIds, s'.newIds, n);
    if archive[n].parent.Some? {
      var j := Latest(archive, s.newIds, archive[n].parent.value, n);
      assert if j < 0 then archive[n].parent.value !in s.idMap
             else archive[n].parent.value in s.idMap && s.newIds[j] == Some(s.idMap[archive[n].parent.value]);
    }
  }

  lemma StepAscends(s: State, archive: seq<ArchivedTask>, project: string, low: nat, n: nat, ok: bool, skip: nat)
    requires ImportOk(s, archive, project, low, n) && n < |archive|
    ensures Ascending(Step(s, archive[n], project, ok, skip).newIds)
  {
    forall i | 0 <= i < n && s.newIds[i].Some? ensures s.newIds[i].value < s.next {
      assert RowOk(s, archive, project, low, i);
    }
  }

  lemma {:induction false} RunIsOk(tasks: map<nat, Row>, next: nat, archive: seq<ArchivedTask>, project: string, w: World, n: nat)
    requires n <= |archive|
    ensures ImportOk(Run(tasks, next, archive, project, w, n), archive, project, next, n)
    decreases n
  {
    if n > 0 {
      RunIsOk(tasks, next, archive, project, w, n - 1);
      var s := Run(tasks, next, archive, project, w, n - 1);
      StepKeepsMap(s, archive, project, n - 1, w.creates(n - 1), w.skips(n - 1));
      StepAscends(s, archive, project, next, n - 1, w.creates(n - 1), w.skips(n - 1));
      StepMakesRow(s, archive, project, next, n - 1, w.creates(n - 1), w.skips(n - 1));
      forall i | 0 <= i < n - 1 ensures RowOk(Run(tasks, next, archive, project, w, n), archive, project, next, i) {
        StepKeepsRow(s, archive, project, next, n - 1, w.creates(n - 1), w.skips(n - 1), i);
      }
    } else {
      assert forall q: int :: Latest(archive, [], q, 0) < 0;
    }
  }

  /** Whatever the archive, the import builds a forest: a parent has a smaller identifier, is
      itself a task of this import, and stands for the archived parent; and a task keeps its
      parent if and only if a task with that identifier was created before it. */
  lemma ImportIsForest(tasks: map<nat, Row>, next: nat, archive: seq<ArchivedTask>, project: string, w: World, i: nat)
    requires i < |archive|
    ensures var s := Run(tasks, next, archive, project, w, |archive|);
            && |s.newIds| == |archive|
            && (s.newIds[i].Some? ==>
                  var t := s.newIds[i].value;
                  && t >= next && t in s.tasks && s.tasks[t].body == archive[i].body && s.tasks[t].project == project
                  && (s.tasks[t].parent.Some? ==>
                        s.tasks[t].parent.value < t && archive[i].parent.Some?
                        && exists j :: 0 <= j < i && s.newIds[j] == s.tasks[t].parent && archive[j].id == archive[i].parent.value)
                  && (s.tasks[t].parent.Some? <==>
                        archive[i].parent.Some?
                        && exists j :: 0 <= j < i && s.newIds[j].Some? && archive[j].id == archive[i].parent.value))
  {
    RunIsOk(tasks, next, archive, project, w, |archive|);
    var s := Run(tasks, next, archive, project, w, |archive|);
    assert RowOk(s, archive, project, next, i);
    if s.newIds[i].Some? && archive[i].parent.Some? {
      var j := Latest(archive, s.newIds, archive[i].parent.value, i);
    }
  }

  // ----- isomorphism -----

  ghost predicate DistinctIds(archive: seq<ArchivedTask>) {
    forall i, j :: 0 <= i < j < |archive| ==> archive[i].id != archive[j].id
  }

  ghost predicate ParentPrecedes(archive: seq<ArchivedTask>, i: nat)
    requires i < |archive|
  {
    archive[i].parent.Some? ==> exists j :: 0 <= j < i && archive[j].id == archive[i].parent.value
  }

  lemma {:induction false} AllCreated(tasks: map<nat, Row>, next: nat, archive: seq<ArchivedTask>, project: string, w: World, n: nat, i: nat)
    requires i < n <= |archive| && forall k :: w.creates(k)
    ensures |Run(tasks, next, archive, project, w, n).newIds| == n && Run(tasks, next, archive, project, w, n).newIds[i].Some?
    decreases n
  {
    RunIsOk(tasks, next, archive, project, w, n);
    RunIsOk(tasks, next, archive, project, w, n - 1);
    if i < n - 1 {
      AllCreated(tasks, next, archive, project, w, n - 1, i);
    }
  }

  function MapParent(m: map<int, nat>, p: Option<int>): Option<nat> {
    if p.Some? && p.value in m then Some(m[p.value]) else None
  }

  /** With distinct identifiers and no failed insertion, the identifier map is an injection on
      the archived identifiers that preserves fields, and it preserves the parent of a task if and
      only if the parent is missing or stands earlier in the archive. */
  lemma ImportIsIsomorphic(tasks: map<nat, Row>, next: nat, archive: seq<ArchivedTask>, project: string, w: World, i: nat, j: nat)
    requires i < |archive| && j < |archive| && DistinctIds(archive) && forall k :: w.creates(k)
    ensures var s := Run(tasks, next, archive, project, w, |archive|);
            var a := archive[i];
            && a.id in s.idMap && archive[j].id in s.idMap && s.idMap[a.id] in s.tasks
            && (s.idMap[a.id] == s.idMap[archive[j].id] ==> i == j)
            && s.tasks[s.idMap[a.id]].body == a.body && s.tasks[s.idMap[a.id]].project == project
            && (ParentPrecedes(archive, i) <==>
                  (a.parent.Some? ==> s.tasks[s.idMap[a.id]].parent.Some?
                                      && s.tasks[s.idMap[a.id]].parent == MapParent(s.idMap, a.parent)))
  {
    var s := Run(tasks, next, archive, project, w, |archive|);
    RunIsOk(tasks, next, archive, project, w, |archive|);
    IdMapped(tasks, next, archive, project, w, i);
    IdMapped(tasks, next, archive, project, w, j);
    assert RowOk(s, archive, project, next, i);
    if i != j {
      assert s.newIds[i].value != s.newIds[j].value;
    }
    if archive[i].parent.Some? {
      var l := Latest(archive, s.newIds, archive[i].parent.value, i);
      if l >= 0 {
        IdMapped(tasks, next, archive, project, w, l);
      }
      forall k | 0 <= k < i ensures s.newIds[k].Some? {
        AllCreated(tasks, next, archive, project, w, |archive|, k);
      }
    }
  }

  lemma IdMapped(tasks: map<nat, Row>, next: nat, archive: seq<ArchivedTask>, project: string, w: World, i: nat)
    requires i < |archive| && DistinctIds(archive) && forall k :: w.creates(k)
    ensures var s := Run(tasks, next, archive, project, w, |archive|);
            |s.newIds| == |archive| && archive[i].id in s.idMap && s.newIds[i] == Some(s.idMap[archive[i].id])
  {
    var s := Run(tasks, next, archive, project, w, |archive|);
    RunIsOk(tasks, next, archive, project, w, |archive|);
    AllCreated(tasks, next, archive, project, w, |archive|, i);
    assert Latest(archive, s.newIds, archive[i].id, |archive|) == i;
  }

  // ----- export, then import -----

  /** The most tasks an archive holds. */
  const EXPORT_LIMIT: nat := 10000

  function ExportCount(order: seq<nat>): (n: nat)
    ensures n <= |order| && n <= EXPORT_LIMIT && (n == |order| <==> |order| <= EXPORT_LIMIT)
  {
    if |order| <= EXPORT_LIMIT then |order| else EXPORT_LIMIT
  }

  /** The first tasks of a project in the order of creation, as an archive. */
  function Exported(rows: map<nat, Row>, order: seq<nat>): seq<ArchivedTask>
    requires forall i :: 0 <= i < |order| ==> order[i] in rows
  {
    seq(ExportCount(order), i requires 0 <= i < |order| =>
      ArchivedTask(order[i], if rows[order[i]].parent.Some? then Some(rows[order[i]].parent.value as int) else None, rows[order[i]].body))
  }

  /** What of a project survives export and import: exactly its first tasks, up to the limit; of
      these all fields, and a parent if and only if it was created earlier in the project. */
  lemma ExportImport(rows: map<nat, Row>, order: seq<nat>, tasks: map<nat, Row>, next: nat, project: string, w: World, i: nat)
    requires forall k :: 0 <= k < |order| ==> order[k] in rows
    requires forall k, l :: 0 <= k < l < |order| ==> order[k] != order[l]
    requires i < |order| && forall k :: w.creates(k)
    ensures var s := Run(tasks, next, Exported(rows, order), project, w, ExportCount(order));
            && (order[i] in s.idMap <==> i < EXPORT_LIMIT)
            && (i < EXPORT_LIMIT ==>
                  var r := rows[order[i]];
                  && s.idMap[order[i]] in s.tasks && s.tasks[s.idMap[order[i]]].body == r.body
                  && (s.tasks[s.idMap[order[i]]].parent.Some? <==> r.parent.Some? && r.parent.value in order[..i])
                  && (r.parent.Some? && r.parent.value in order[..i] ==>
                        r.parent.value in s.idMap && s.tasks[s.idMap[order[i]]].parent == Some(s.idMap[r.parent.value])))
  {
    var archive := Exported(rows, order);
    if i < EXPORT_LIMIT {
      ExportedSurvives(rows, order, tasks, next, project, w, i);
    } else {
      RunIsOk(tasks, next, archive, project, w, |archive|);
      forall j | 0 <= j < |archive| ensures archive[j].id != order[i] {
        assert archive[j].id == order[j];
      }
    }
  }

  lemma ExportedSurvives(rows: map<nat, Row>, order: seq<nat>, tasks: map<nat, Row>, next: nat, project: string, w: World, i: nat)
    requires forall k :: 0 <= k < |order| ==> order[k] in rows
    requires forall k, l :: 0 <= k < l < |order| ==> order[k] != order[l]
    requires i < ExportCount(order) && forall k :: w.creates(k)
    ensures var s := Run(tasks, next, Exported(rows, order), project, w, ExportCount(order));
            var r := rows[order[i]];
            && order[i] in s.idMap && s.idMap[order[i]] in s.tasks && s.tasks[s.idMap[order[i]]].body == r.body
            && (s.tasks[s.idMap[order[i]]].parent.Some? <==> r.parent.Some? && r.parent.value in order[..i])
            && (r.parent.Some? && r.parent.value in order[..i] ==>
                  r.parent.value in s.idMap && s.tasks[s.idMap[order[i]]].parent == Some(s.idMap[r.parent.value]))
  {
    var archive := Exported(rows, order);
    ImportIsIsomorphic(tasks, next, archive, project, w, i, i);
    IdMapped(tasks, next, archive, project, w, i);
    ImportIsForest(tasks, next, archive, project, w, i);
    if rows[order[i]].parent.Some? {
      var p := rows[order[i]].parent.value;
      assert archive[i].parent == Some(p as int);
      if p in order[..i] {
        var k :| 0 <= k < |order[..i]| && order[..i][k] == p;
        assert archive[k].id == p;
      } else {
        forall j | 0 <= j < i ensures archive[j].id != p {
          assert archive[j].id == order[j] && order[j] in order[..i];
        }
      }
    }
  }
}
