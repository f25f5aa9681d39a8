/** Workstream scores: each refresh mixes the previous score with what the tasks show. Over the
    reals; rounding is not modelled. */
module Continuity {
  import Store

  datatype Status = Active | Paused | Completed | Abandoned | Unknown(name: string)

  datatype Workstream = Workstream(status: Status, continuity: real, urgency: real, related: seq<nat>, hasNext: bool)

  const MOMENTUM := 0.3
  const RECENCY_WEIGHT := 0.4
  const COMPLETION_WEIGHT := 0.3

  function Clamp(x: real): real {
    if x < 0.0 then 0.0 else if x > 1.0 then 1.0 else x
  }

  predicate Ended(ws: Workstream) {
    ws.status == Completed || ws.status == Abandoned
  }

  /** How many of the related tasks exist and have one of these statuses. */
  function Count(related: seq<nat>, tasks: map<nat, Store.StatusV2>, statuses: set<Store.StatusV2>): nat {
    if related == [] then 0
    else Count(related[..|related| - 1], tasks, statuses)
         + if related[|related| - 1] in tasks && tasks[related[|related| - 1]] in statuses then 1 else 0
  }

  lemma {:induction false} CountBounded(related: seq<nat>, tasks: map<nat, Store.StatusV2>, statuses: set<Store.StatusV2>)
    ensures Count(related, tasks, statuses) <= |related|
    decreases |related|
  {
    if related != [] {
      CountBounded(related[..|related| - 1], tasks, statuses);
    }
  }

  function Share(n: nat, total: nat): real
    requires total > 0
  {
    n as real / total as real
  }

  function TaskGain(related: seq<nat>, tasks: map<nat, Store.StatusV2>): real {
    if related == [] then 0.1
    else (if Count(related, tasks, {Store.Claimed, Store.Running}) > 0 then RECENCY_WEIGHT * 0.8 else 0.0)
         + COMPLETION_WEIGHT * Share(Count(related, tasks, {Store.Succeeded}), |related|)
  }

  function TaskUrgency(related: seq<nat>, tasks: map<nat, Store.StatusV2>): real {
    if related == [] then 0.0 else 0.3 * Share(Count(related, tasks, {Store.Failed}), |related|)
  }

  /** What a refresh adds to the momentum: everything but the previous score. */
  function Gain(ws: Workstream, tasks: map<nat, Store.StatusV2>): real {
    TaskGain(ws.related, tasks)
    + (if ws.status == Active then 0.2 else if ws.status == Paused then 0.1 else 0.0)
    + (if ws.hasNext then 0.1 else 0.0)
  }

  function ContinuityOf(ws: Workstream, tasks: map<nat, Store.StatusV2>): real {
    if Ended(ws) then 0.0 else Clamp(MOMENTUM * ws.continuity + Gain(ws, tasks))
  }

  function UrgencyOf(ws: Workstream, tasks: map<nat, Store.StatusV2>): real {
    if Ended(ws) then 0.0
    else Clamp(TaskUrgency(ws.related, tasks)
               + (if ws.status == Active then 0.2 else if ws.status == Paused then 0.1 else 0.0))
  }

  // ----- the program -----

  method ScoreWorkstream(ws: Workstream, tasks: map<nat, Store.StatusV2>) returns (continuity: real, urgency: real)
    ensures continuity == ContinuityOf(ws, tasks) && urgency == UrgencyOf(ws, tasks)
    ensures 0.0 <= continuity <= 1.0 && 0.0 <= urgency <= 1.0
  {
    continuity, urgency := ScoreTasks(ws.related, tasks);
    continuity := ws.continuity * MOMENTUM + continuity;
    if ws.status == Active {
      continuity, urgency := continuity + 0.2, urgency + 0.2;
    } else if ws.status == Paused {
      continuity, urgency := continuity + 0.1, urgency + 0.1;
    } else if ws.status == Completed || ws.status == Abandoned {
      continuity, urgency := 0.0, 0.0;
      return;
    }
    if ws.hasNext {
      continuity := continuity + 0.1;
    }
    continuity, urgency := Clamp(continuity), Clamp(urgency);
  }

  method ScoreTasks(related: seq<nat>, tasks: map<nat, Store.StatusV2>) returns (continuity: real, urgency: real)
    ensures continuity == TaskGain(related, tasks) && urgency == TaskUrgency(related, tasks)
  {
    continuity, urgency := 0.0, 0.0;
    var total := |related|;
    if total > 0 {
      var active, completed, failed := CountStatuses(related, tasks);
      if active > 0 {
        continuity := continuity + RECENCY_WEIGHT * 0.8;
      }
      continuity := continuity + COMPLETION_WEIGHT * Share(completed, total);
      if failed > 0 {
        urgency := urgency + 0.3 * Share(failed, total);
      }
    } else {
      continuity := continuity + 0.1;
    }
  }

  method CountStatuses(related: seq<nat>, tasks: map<nat, Store.StatusV2>) returns (active: nat, completed: nat, failed: nat)
    ensures active == Count(related, tasks, {Store.Claimed, Store.Running})
    ensures completed == Count(related, tasks, {Store.Succeeded}) && failed == Count(related, tasks, {Store.Failed})
  {
    active, completed, failed := 0, 0, 0;
    for i := 0 to |related|
      invariant active == Count(related[..i], tasks, {Store.Claimed, Store.Running})
      invariant completed == Count(related[..i], tasks, {Store.Succeeded}) && failed == Count(related[..i], tasks, {Store.Failed})
    {
      assert related[..i + 1][..i] == related[..i];
      if related[i] in tasks {
        match tasks[related[i]] {
          case Claimed => active := active + 1;
          case Running => active := active + 1;
          case Succeeded => completed := completed + 1;
          case Failed => failed := failed + 1;
          case _ =>
        }
      }
    }
    assert related[..|related|] == related;
  }

  /** The row after a refresh. */
  function Refreshed(ws: Workstream, tasks: map<nat, Store.StatusV2>): Workstream {
    if Ended(ws) then ws else ws.(continuity := ContinuityOf(ws, tasks), urgency := UrgencyOf(ws, tasks))
  }

  class WorkstreamTable {
    var rows: seq<Workstream>

    constructor (rows: seq<Workstream>)
      ensures this.rows == rows
    {
      this.rows := rows;
    }

    /** `saved` says which row updates succeed; a row whose update fails stays as it was. */
    method RefreshScores(tasks: map<nat, Store.StatusV2>, saved: nat -> bool)
      modifies this
      ensures |rows| == |old(rows)|
      ensures forall i :: 0 <= i < |rows| ==> rows[i] == if saved(i) then Refreshed(old(rows)[i], tasks) else old(rows)[i]
    {
      for i := 0 to |rows|
        invariant |rows| == |old(rows)|
        invariant forall k :: 0 <= k < |rows| ==>
                    rows[k] == if k < i && saved(k) then Refreshed(old(rows)[k], tasks) else old(rows)[k]
      {
        var ws := rows[i];
        if ws.status == Completed || ws.status == Abandoned {
          continue;
        }
        var c, u := ScoreWorkstream(ws, tasks);
        ws := ws.(continuity := c);
        ws := ws.(urgency := u);
        if saved(i) {
          rows := rows[i := ws];
        }
      }
    }
  }

  // ----- the scores by value -----

  /** The two scores of a live workstream, weight by weight: a task being worked on counts 0.32, the
      share of succeeded tasks 0.3, no tasks 0.1, being active 0.2 and paused 0.1, a next action 0.1,
      and the previous score 0.3; the share of failed tasks makes it urgent. */
  lemma ScoresAre(ws: Workstream, tasks: map<nat, Store.StatusV2>)
    requires !Ended(ws)
    ensures var n := |ws.related|;
            var worked := exists i :: 0 <= i < n && ws.related[i] in tasks && tasks[ws.related[i]] in {Store.Claimed, Store.Running};
            var done, failed := Count(ws.related, tasks, {Store.Succeeded}), Count(ws.related, tasks, {Store.Failed});
            var live := if ws.status == Active then 0.2 else if ws.status == Paused then 0.1 else 0.0;
            && ContinuityOf(ws, tasks)
               == Clamp(0.3 * ws.continuity + live + (if ws.hasNext then 0.1 else 0.0)
                        + if n == 0 then 0.1 else (if worked then 0.32 else 0.0) + 0.3 * (done as real / n as real))
            && UrgencyOf(ws, tasks) == Clamp(live + if n == 0 then 0.0 else 0.3 * (failed as real / n as real))
  {
    CountIsPositive(ws.related, tasks, {Store.Claimed, Store.Running});
  }

  lemma {:induction false} CountIsPositive(related: seq<nat>, tasks: map<nat, Store.StatusV2>, statuses: set<Store.StatusV2>)
    ensures Count(related, tasks, statuses) > 0
            <==> exists i :: 0 <= i < |related| && related[i] in tasks && tasks[related[i]] in statuses
    decreases |related|
  {
    if related != [] {
      var prefix, last := related[..|related| - 1], related[|related| - 1];
      CountIsPositive(prefix, tasks, statuses);
      assert related == prefix + [last];
      if last in tasks && tasks[last] in statuses {
        assert related[|related| - 1] == last;
      } else if i :| 0 <= i < |related| && related[i] in tasks && tasks[related[i]] in statuses {
        assert prefix[i] == related[i];
      }
    }
  }

  // ----- repeated refreshes -----

  function RefreshN(ws: Workstream, tasks: map<nat, Store.StatusV2>, n: nat): Workstream {
    if n == 0 then ws else Refreshed(RefreshN(ws, tasks, n - 1), tasks)
  }

  function Abs(x: real): real {
    if x < 0.0 then -x else x
  }

  function Pow(x: real, n: nat): real {
    if n == 0 then 1.0 else x * Pow(x, n - 1)
  }

  /** The score that a refresh leaves alone. */
  function FixedPoint(ws: Workstream, tasks: map<nat, Store.StatusV2>): real {
    var g := Gain(ws, tasks);
    if g >= 0.7 then 1.0 else g / 0.7
  }

  lemma GainIsPositive(ws: Workstream, tasks: map<nat, Store.StatusV2>)
    ensures Gain(ws, tasks) >= 0.0
  {
  }

  lemma SameGain(ws: Workstream, tasks: map<nat, Store.StatusV2>, c: real, u: real)
    ensures Gain(ws.(continuity := c, urgency := u), tasks) == Gain(ws, tasks)
    ensures Ended(ws.(continuity := c, urgency := u)) == Ended(ws)
  {
  }

  lemma ClampContracts(a: real, b: real)
    ensures Abs(Clamp(a) - Clamp(b)) <= Abs(a - b)
  {
  }

  /** A refresh of a live workstream brings any two scores closer by the factor 0.3. */
  lemma RefreshContracts(ws: Workstream, tasks: map<nat, Store.StatusV2>, a: real, b: real)
    requires !Ended(ws)
    ensures Abs(ContinuityOf(ws.(continuity := a), tasks) - ContinuityOf(ws.(continuity := b), tasks)) <= MOMENTUM * Abs(a - b)
  {
    SameGain(ws, tasks, a, ws.urgency);
    SameGain(ws, tasks, b, ws.urgency);
    var g := Gain(ws, tasks);
    ClampContracts(MOMENTUM * a + g, MOMENTUM * b + g);
  }

  /** There is exactly one score that a refresh leaves alone, and it lies between 0 and 1. */
  lemma FixedPointIsUnique(ws: Workstream, tasks: map<nat, Store.StatusV2>, c: real)
    requires !Ended(ws)
    ensures ContinuityOf(ws.(continuity := c), tasks) == c <==> c == FixedPoint(ws, tasks)
    ensures 0.0 <= FixedPoint(ws, tasks) <= 1.0
  {
    GainIsPositive(ws, tasks);
    SameGain(ws, tasks, c, ws.urgency);
  }

  lemma {:induction false} RefreshKeepsShape(ws: Workstream, tasks: map<nat, Store.StatusV2>, n: nat)
    ensures var r := RefreshN(ws, tasks, n);
            r.status == ws.status && r.related == ws.related && r.hasNext == ws.hasNext
    ensures Gain(RefreshN(ws, tasks, n), tasks) == Gain(ws, tasks)
    decreases n
  {
    if n > 0 {
      RefreshKeepsShape(ws, tasks, n - 1);
    }
  }

  /** While tasks and status do not change, the score after `n` refreshes is within `0.3^n` of
      the fixed point, wherever in [0, 1] it started; what it was is forgotten. */
  lemma {:induction false} RefreshConverges(ws: Workstream, tasks: map<nat, Store.StatusV2>, n: nat)
    requires !Ended(ws) && 0.0 <= ws.continuity <= 1.0
    ensures Abs(RefreshN(ws, tasks, n).continuity - FixedPoint(ws, tasks)) <= Pow(MOMENTUM, n)
    decreases n
  {
    var f := FixedPoint(ws, tasks);
    FixedPointIsUnique(ws, tasks, f);
    if n > 0 {
      RefreshConverges(ws, tasks, n - 1);
      RefreshKeepsShape(ws, tasks, n - 1);
      var p := RefreshN(ws, tasks, n - 1);
      RefreshContracts(p, tasks, p.continuity, f);
      FixedPointIsUnique(p, tasks, f);
      assert p.(continuity := p.continuity) == p;
      assert RefreshN(ws, tasks, n).continuity == ContinuityOf(p, tasks);
    }
  }
}
