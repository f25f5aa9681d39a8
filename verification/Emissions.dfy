/** Time-window deduplication: at most one emission of a kind per project and window. */
module Emissions {
  import opened Arith

  const DEFAULT_WINDOW := 300

  /** A dedupe key. The key the table stores is a hash of these three values; distinct values
      are taken to have distinct keys. */
  datatype Key = Key(project: string, kind: string, window: nat)

  function KeyAt(project: string, kind: string, now: nat, w: nat): Key
    requires w > 0
  {
    Key(project, kind, now / w)
  }

  /** The table: dedupe key to creation time. */
  type Rows = map<Key, nat>

  /** INSERT OR IGNORE. */
  function Insert(rows: Rows, k: Key, now: nat): Rows {
    if k in rows then rows else rows[k := now]
  }

  /** DELETE the rows created before `now - maxAge`. */
  function Sweep(rows: Rows, now: nat, maxAge: int): Rows {
    map k | k in rows && rows[k] >= now - maxAge :: rows[k]
  }

  class EmissionTable {
    var rows: Rows
    var windowSeconds: nat

    ghost predicate Valid()
      reads this
    {
      windowSeconds > 0
    }

    constructor ()
      ensures Valid() && rows == map[] && windowSeconds == DEFAULT_WINDOW
    {
      rows := map[];
      windowSeconds := DEFAULT_WINDOW;
    }

    method SetEmissionWindow(seconds: int)
      modifies this
      ensures Valid() && rows == old(rows)
      ensures windowSeconds == if seconds <= 0 then DEFAULT_WINDOW else seconds
    {
      var s := seconds;
      if s <= 0 {
        s := DEFAULT_WINDOW;
      }
      windowSeconds := s;
    }

    method TryRecord(project: string, kind: string, now: nat) returns (recorded: bool)
      requires Valid()
      modifies this
      ensures Valid() && windowSeconds == old(windowSeconds)
      ensures recorded <==> KeyAt(project, kind, now, windowSeconds) !in old(rows)
      ensures rows == Insert(old(rows), KeyAt(project, kind, now, windowSeconds), now)
    {
      var k := KeyAt(project, kind, now, windowSeconds);
      var before := |rows|;
      if k !in rows {
        rows := rows[k := now];
      }
      recorded := |rows| == before + 1;
    }

    method CheckAllowed(project: string, kind: string, now: nat) returns (allowed: bool)
      requires Valid()
      ensures allowed <==> KeyAt(project, kind, now, windowSeconds) !in rows
    {
      allowed := KeyAt(project, kind, now, windowSeconds) !in rows;
    }

    method Cleanup(now: nat, maxAge: int) returns (deleted: nat)
      requires Valid()
      modifies this
      ensures Valid() && windowSeconds == old(windowSeconds)
      ensures rows == Sweep(old(rows), now, maxAge) && deleted == |old(rows)| - |rows|
    {
      var kept := Sweep(rows, now, maxAge);
      SweepShrinks(rows, now, maxAge);
      deleted := |rows| - |kept|;
      rows := kept;
    }
  }

  lemma SweepShrinks(rows: Rows, now: nat, maxAge: int)
    ensures |Sweep(rows, now, maxAge)| <= |rows|
  {
    var kept := Sweep(rows, now, maxAge);
    assert kept.Keys <= rows.Keys;
    CardinalityMonotone(kept.Keys, rows.Keys);
    assert |kept| == |kept.Keys| && |rows| == |rows.Keys|;
  }

  lemma {:induction false} CardinalityMonotone<T>(a: set<T>, b: set<T>)
    requires a <= b
    ensures |a| <= |b|
    decreases a
  {
    if a != {} {
      var x :| x in a;
      CardinalityMonotone(a - {x}, b - {x});
    }
  }

  // ----- histories -----

  datatype Act = Try(project: string, kind: string, now: nat) | Clean(now: nat, maxAge: int)

  function After(w: nat, h: seq<Act>): Rows
    requires w > 0
  {
    if h == [] then map[]
    else
      var rows := After(w, h[..|h| - 1]);
      match h[|h| - 1]
      case Try(p, k, now) => Insert(rows, KeyAt(p, k, now, w), now)
      case Clean(now, maxAge) => Sweep(rows, now, maxAge)
  }

  ghost predicate Clocked(h: seq<Act>) {
    forall i, j :: 0 <= i < j < |h| ==> h[i].now <= h[j].now
  }

  ghost predicate CleansKeep(h: seq<Act>, age: int) {
    forall i :: 0 <= i < |h| && h[i].Clean? ==> h[i].maxAge >= age
  }

  ghost predicate IsTry(h: seq<Act>, w: nat, i: int, k: Key)
    requires w > 0
  {
    0 <= i < |h| && h[i].Try? && KeyAt(h[i].project, h[i].kind, h[i].now, w) == k
  }

  /** The attempt at `i` inserted its row. */
  ghost predicate Recorded(w: nat, h: seq<Act>, i: int)
    requires w > 0
  {
    0 <= i < |h| && h[i].Try? && KeyAt(h[i].project, h[i].kind, h[i].now, w) !in After(w, h[..i])
  }

  lemma WindowStart(now: nat, w: nat)
    requires w > 0
    ensures (now / w) * w <= now < (now / w) * w + w
  {
  }

  /** The rows of a history: each stems from an attempt and was created in its own window. */
  lemma {:induction false} RowsStem(w: nat, h: seq<Act>, k: Key)
    requires w > 0 && k in After(w, h)
    ensures After(w, h)[k] >= k.window * w && exists j :: IsTry(h, w, j, k)
    decreases |h|
  {
    var g := h[..|h| - 1];
    if k in After(w, g) {
      RowsStem(w, g, k);
      var j :| IsTry(g, w, j, k);
      assert IsTry(h, w, j, k);
    } else {
      assert IsTry(h, w, |h| - 1, k);
      WindowStart(h[|h| - 1].now, w);
    }
  }

  /** No cleanup that keeps rows for `w - 1` seconds removes a row of the current window. */
  lemma {:induction false} CurrentWindowKept(w: nat, h: seq<Act>, j: nat, k: Key, now: nat)
    requires w > 0 && Clocked(h) && CleansKeep(h, w - 1) && IsTry(h, w, j, k)
    requires now / w == k.window && forall i :: 0 <= i < |h| ==> h[i].now <= now
    ensures k in After(w, h)
    decreases |h|
  {
    var g, a := h[..|h| - 1], h[|h| - 1];
    if j < |h| - 1 {
      assert IsTry(g, w, j, k);
      CurrentWindowKept(w, g, j, k, now);
      if a.Clean? {
        RowsStem(w, g, k);
        WindowStart(now, w);
      }
    }
  }

  /** With such cleanups an attempt succeeds if and only if it is the first of its key: the
      table behaves as if it remembered every attempt for ever. */
  lemma RecordedIffFirst(w: nat, h: seq<Act>, i: nat)
    requires w > 0 && Clocked(h) && CleansKeep(h, w - 1) && i < |h| && h[i].Try?
    ensures Recorded(w, h, i) <==>
            !exists j :: 0 <= j < i && IsTry(h, w, j, KeyAt(h[i].project, h[i].kind, h[i].now, w))
  {
    var k := KeyAt(h[i].project, h[i].kind, h[i].now, w);
    var g := h[..i];
    if exists j :: 0 <= j < i && IsTry(h, w, j, k) {
      var j :| 0 <= j < i && IsTry(h, w, j, k);
      assert IsTry(g, w, j, k);
      CurrentWindowKept(w, g, j, k, h[i].now);
    }
    if k in After(w, g) {
      RowsStem(w, g, k);
      var j :| IsTry(g, w, j, k);
      assert IsTry(h, w, j, k);
    }
  }

  /** The successful attempts for one project and kind between `t1` and `t2`. */
  ghost function Successes(w: nat, h: seq<Act>, n: nat, project: string, kind: string, t1: nat, t2: nat): nat
    requires w > 0 && n <= |h|
  {
    if n == 0 then 0
    else Successes(w, h, n - 1, project, kind, t1, t2) +
         if Recorded(w, h, n - 1) && h[n - 1].project == project && h[n - 1].kind == kind
            && t1 <= h[n - 1].now <= t2 then 1 else 0
  }

  /** Successes fall into distinct windows, in increasing order. */
  lemma {:induction false} SuccessesUseWindows(
    w: nat, h: seq<Act>, n: nat, project: string, kind: string, t1: nat, t2: nat) returns (last: nat)
    requires w > 0 && Clocked(h) && CleansKeep(h, w - 1) && n <= |h|
    requires Successes(w, h, n, project, kind, t1, t2) > 0
    ensures last < n && Recorded(w, h, last) && h[last].project == project && h[last].kind == kind
    ensures t1 <= h[last].now <= t2
    ensures Successes(w, h, n, project, kind, t1, t2) <= h[last].now / w - t1 / w + 1
    decreases n
  {
    var before := Successes(w, h, n - 1, project, kind, t1, t2);
    if Successes(w, h, n, project, kind, t1, t2) == before {
      last := SuccessesUseWindows(w, h, n - 1, project, kind, t1, t2);
    } else {
      last := n - 1;
      DivMonotone(t1, h[last].now, w);
      if before > 0 {
        var prev := SuccessesUseWindows(w, h, n - 1, project, kind, t1, t2);
        DivMonotone(h[prev].now, h[last].now, w);
        assert h[prev].now / w == h[last].now / w ==> IsTry(h, w, prev, KeyAt(project, kind, h[last].now, w));
        RecordedIffFirst(w, h, last);
      }
    }
  }

  lemma DivMonotone(a: nat, b: nat, w: nat)
    requires a <= b && w > 0
    ensures a / w <= b / w
  {
    WindowStart(a, w);
    WindowStart(b, w);
    if b / w < a / w {
      ScaleMonotone(b / w + 1, a / w, w);
    }
  }

  /** Between two instants a kind is emitted at most once per window touched. */
  lemma EmissionsAreBounded(w: nat, h: seq<Act>, project: string, kind: string, t1: nat, t2: nat)
    requires w > 0 && Clocked(h) && CleansKeep(h, w - 1) && t1 <= t2
    ensures Successes(w, h, |h|, project, kind, t1, t2) <= t2 / w - t1 / w + 1
  {
    DivMonotone(t1, t2, w);
    if Successes(w, h, |h|, project, kind, t1, t2) > 0 {
      var last := SuccessesUseWindows(w, h, |h|, project, kind, t1, t2);
      DivMonotone(h[last].now, t2, w);
    }
  }

  /** No key is recorded twice. */
  ghost predicate OncePerWindow(w: nat, h: seq<Act>)
    requires w > 0
  {
    forall i, j :: 0 <= i < j < |h| && Recorded(w, h, i) && Recorded(w, h, j) ==>
      KeyAt(h[i].project, h[i].kind, h[i].now, w) != KeyAt(h[j].project, h[j].kind, h[j].now, w)
  }

  lemma ShortAgeReopens(w: nat, maxAge: nat) returns (h: seq<Act>)
    requires maxAge + 2 <= w
    ensures Clocked(h) && CleansKeep(h, maxAge) && !OncePerWindow(w, h)
  {
    var a, c, b := Try("p", "k", 0), Clean(maxAge + 1, maxAge), Try("p", "k", maxAge + 1);
    h := [a, c, b];
    var k := Key("p", "k", 0);
    assert 0 / w == 0 && (maxAge + 1) / w == 0;
    assert h[..0] == [] && h[..1] == [a] && h[..2] == [a, c];
    assert [a][..0] == [] && After(w, [a]) == map[k := 0];
    assert [a, c][..1] == [a];
    assert k !in After(w, [a, c]);
    assert Recorded(w, h, 0) && Recorded(w, h, 2);
  }

  /** The retention that keeps deduplication intact is exactly one second less than the window:
      with a shorter one, a cleanup can reopen the window it runs in. */
  lemma RetentionExactly(w: nat, maxAge: nat)
    requires w > 0
    ensures (forall h: seq<Act> :: Clocked(h) && CleansKeep(h, maxAge) ==> OncePerWindow(w, h)) <==> maxAge >= w - 1
  {
    if maxAge >= w - 1 {
      forall h: seq<Act> | Clocked(h) && CleansKeep(h, maxAge) ensures OncePerWindow(w, h) {
        forall i, j | 0 <= i < j < |h| && Recorded(w, h, i) && Recorded(w, h, j)
          ensures KeyAt(h[i].project, h[i].kind, h[i].now, w) != KeyAt(h[j].project, h[j].kind, h[j].now, w)
        {
          var k := KeyAt(h[j].project, h[j].kind, h[j].now, w);
          assert KeyAt(h[i].project, h[i].kind, h[i].now, w) == k ==> IsTry(h, w, i, k);
          RecordedIffFirst(w, h, j);
        }
      }
    } else {
      var h := ShortAgeReopens(w, maxAge);
    }
  }
}
