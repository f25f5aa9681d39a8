/** The circuit breaker that guards automation rules: one three-state entry per rule name. */
module CircuitBreaker {
  import opened Arith

  datatype CircuitState = Closed | Open | HalfOpen

  datatype Entry = Entry(state: CircuitState, failures: nat, lastFailure: int, openedAt: int)

  const FRESH := Entry(Closed, 0, 0, 0)

  const DEFAULT_MAX_FAILURES := 5
  const DEFAULT_COOLDOWN := 300

  /** The two settings, after non-positive values have been replaced by the defaults. */
  datatype Settings = Settings(maxFailures: int, cooldown: int) {
    ghost predicate Valid() { maxFailures > 0 && cooldown > 0 }
  }

  /** What callers do to one rule's entry, with the clock reading the call sees. */
  datatype Call = Allow(now: int) | Success | Failure(now: int) | GetState(now: int)

  function Next(cfg: Settings, e: Entry, c: Call): Entry {
    match c
    case Allow(now) =>
      if e.state == Open && now - e.openedAt >= cfg.cooldown then e.(state := HalfOpen) else e
    case Success => e.(state := Closed, failures := 0)
    case Failure(now) =>
      var e' := e.(failures := e.failures + 1, lastFailure := now);
      if (e.state == Closed && e'.failures >= cfg.maxFailures) || e.state == HalfOpen
      then e'.(state := Open, openedAt := now) else e'
    case GetState(now) =>
      if e.state == Open && now - e.openedAt >= cfg.cooldown then e.(state := HalfOpen) else e
  }

  predicate Admits(cfg: Settings, e: Entry, now: int) {
    e.state == Closed || (e.state == Open && now - e.openedAt >= cfg.cooldown)
  }

  class Breaker {
    const cfg: Settings
    var states: map<string, Entry>
    /** All calls so far, oldest first. */
    ghost var history: seq<RuleCall>

    ghost predicate Valid()
      reads this
    {
      cfg.Valid() && states == RunAll(cfg, history)
    }

    /** The calls for one rule so far. */
    ghost function Calls(rule: string): seq<Call>
      reads this
    {
      CallsOf(history, rule)
    }

    constructor (maxFailures: int, cooldown: int)
      ensures Valid() && states == map[] && history == []
      ensures cfg == Settings(if maxFailures <= 0 then DEFAULT_MAX_FAILURES else maxFailures,
                              if cooldown <= 0 then DEFAULT_COOLDOWN else cooldown)
    {
      var max, cool := maxFailures, cooldown;
      if max <= 0 {
        max := DEFAULT_MAX_FAILURES;
      }
      if cool <= 0 {
        cool := DEFAULT_COOLDOWN;
      }
      cfg := Settings(max, cool);
      states := map[];
      history := [];
    }

    function EntryOf(rule: string): Entry
      reads this
    {
      if rule in states then states[rule] else FRESH
    }

    method GetOrCreate(rule: string) returns (e: Entry)
      modifies `states
      ensures e == old(EntryOf(rule)) && states == old(states)[rule := e]
    {
      if rule !in states {
        states := states[rule := FRESH];
      }
      e := states[rule];
    }

    /** Admits on a short streak of failures, or a cooldown after the failure that opened the
        circuit, if nobody has tried it since. */
    method AllowExecution(rule: string, now: int) returns (allowed: bool)
      requires Valid()
      modifies this
      ensures Valid() && history == old(history) + [RuleCall(rule, Allow(now))]
      ensures allowed <==> LetThrough(cfg, old(Calls(rule)), now)
      ensures allowed == Admits(cfg, old(EntryOf(rule)), now)
      ensures states == old(states)[rule := Next(cfg, old(EntryOf(rule)), Allow(now))]
    {
      Recorded(cfg, history, rule, Allow(now));
      AdmittedExactly(cfg, CallsOf(history, rule), now);
      history := history + [RuleCall(rule, Allow(now))];
      var e := GetOrCreate(rule);
      match e.state {
        case Closed => allowed := true;
        case Open =>
          allowed := now - e.openedAt >= cfg.cooldown;
          if allowed {
            states := states[rule := e.(state := HalfOpen)];
          }
        case HalfOpen => allowed := false;
      }
    }

    method RecordSuccess(rule: string)
      requires Valid()
      modifies this
      ensures Valid() && history == old(history) + [RuleCall(rule, Success)]
      ensures states == old(states)[rule := Next(cfg, old(EntryOf(rule)), Success)]
    {
      Recorded(cfg, history, rule, Success);
      history := history + [RuleCall(rule, Success)];
      var e := GetOrCreate(rule);
      e := e.(state := Closed);
      e := e.(failures := 0);
      states := states[rule := e];
    }

    method RecordFailure(rule: string, now: int) returns (justOpened: bool)
      requires Valid()
      modifies this
      ensures Valid() && history == old(history) + [RuleCall(rule, Failure(now))]
      ensures justOpened <==> Opening(cfg, old(Calls(rule)) + [Failure(now)]) == |old(Calls(rule))|
      ensures states == old(states)[rule := Next(cfg, old(EntryOf(rule)), Failure(now))]
      ensures justOpened <==> old(EntryOf(rule)).state != Open && EntryOf(rule).state == Open
    {
      var e := GetOrCreate(rule);
      e := e.(failures := e.failures + 1);
      e := e.(lastFailure := now);
      justOpened := false;
      match e.state {
        case Closed =>
          if e.failures >= cfg.maxFailures {
            e := e.(state := Open);
            e := e.(openedAt := now);
            justOpened := true;
          }
        case HalfOpen =>
          e := e.(state := Open);
          e := e.(openedAt := now);
          justOpened := true;
        case Open =>
      }
      states := states[rule := e];
      assert states == old(states)[rule := Next(cfg, old(EntryOf(rule)), Failure(now))];
      assert justOpened <==> old(EntryOf(rule)).state != Open && EntryOf(rule).state == Open;
      Recorded(cfg, history, rule, Failure(now));
      OpensExactly(cfg, CallsOf(history, rule), now);
      history := history + [RuleCall(rule, Failure(now))];
    }

    method ReadState(rule: string, now: int) returns (state: CircuitState)
      requires Valid()
      modifies this
      ensures Valid() && history == old(history) + [RuleCall(rule, GetState(now))]
      ensures var h := old(Calls(rule)) + [GetState(now)];
              state == if FailureStreak(h) < cfg.maxFailures then Closed else if Tried(cfg, h) then HalfOpen else Open
      ensures states == old(states)[rule := Next(cfg, old(EntryOf(rule)), GetState(now))]
      ensures state == EntryOf(rule).state
    {
      Recorded(cfg, history, rule, GetState(now));
      StateIs(cfg, CallsOf(history, rule) + [GetState(now)]);
      history := history + [RuleCall(rule, GetState(now))];
      var e := GetOrCreate(rule);
      if e.state == Open && now - e.openedAt >= cfg.cooldown {
        e := e.(state := HalfOpen);
        states := states[rule := e];
      }
      state := e.state;
    }
  }

  // ----- one rule's history -----

  /** The entry after a history of calls, oldest first. */
  function Run(cfg: Settings, h: seq<Call>): Entry {
    if h == [] then FRESH else Next(cfg, Run(cfg, h[..|h| - 1]), h[|h| - 1])
  }

  /** The failures since the last success. */
  function FailureStreak(h: seq<Call>): nat {
    if h == [] then 0
    else match h[|h| - 1]
      case Success => 0
      case Failure(_) => FailureStreak(h[..|h| - 1]) + 1
      case _ => FailureStreak(h[..|h| - 1])
  }

  /** The breaker refines its history: it is closed exactly while the current streak of
      failures is shorter than the limit. */
  lemma {:induction false} ClosedIffShortStreak(cfg: Settings, h: seq<Call>)
    requires cfg.Valid()
    ensures Run(cfg, h).failures == FailureStreak(h)
    ensures Run(cfg, h).state == Closed <==> FailureStreak(h) < cfg.maxFailures
    decreases |h|
  {
    if h != [] {
      ClosedIffShortStreak(cfg, h[..|h| - 1]);
    }
  }

  // ----- the state, read off the history -----

  /** The failure that opened the circuit last, or -1 when it is closed: the one that made the streak
      long enough, or a later one that came after the circuit had been tried. */
  function Opening(cfg: Settings, h: seq<Call>): (r: int)
    ensures -1 <= r < |h| && (r >= 0 ==> h[r].Failure?)
    decreases |h|, 0
  {
    if h == [] then -1
    else
      var before := h[..|h| - 1];
      match h[|h| - 1]
      case Success => -1
      case Failure(_) =>
        if FailureStreak(h) == cfg.maxFailures || Tried(cfg, before) then |h| - 1 else Opening(cfg, before)
      case _ => Opening(cfg, before)
  }

  /** A cooldown or more after the failure that opened the circuit an execution was asked for, and
      so admitted, or the state was read. */
  predicate Tried(cfg: Settings, h: seq<Call>)
    decreases |h|, 1
  {
    var o := Opening(cfg, h);
    o >= 0 && exists k :: o < k < |h| && (h[k].Allow? || h[k].GetState?) && h[k].now - h[o].now >= cfg.cooldown
  }

  /** After the history `h` an execution at `now` is let through. */
  predicate LetThrough(cfg: Settings, h: seq<Call>, now: int) {
    || FailureStreak(h) < cfg.maxFailures
    || (Opening(cfg, h) >= 0 && now - h[Opening(cfg, h)].now >= cfg.cooldown && !Tried(cfg, h))
  }

  lemma TriedSnoc(cfg: Settings, h: seq<Call>, c: Call)
    requires Opening(cfg, h + [c]) == Opening(cfg, h)
    ensures Tried(cfg, h + [c])
            <==> Tried(cfg, h) || (Opening(cfg, h) >= 0 && (c.Allow? || c.GetState?) && c.now - h[Opening(cfg, h)].now >= cfg.cooldown)
  {
    var o, g := Opening(cfg, h), h + [c];
    assert g[|h|] == c && forall k :: 0 <= k < |h| ==> g[k] == h[k];
  }

  lemma OpeningSnoc(cfg: Settings, h: seq<Call>, c: Call)
    ensures Opening(cfg, h + [c]) == match c
                                     case Success => -1
                                     case Failure(_) =>
                                       if FailureStreak(h) + 1 == cfg.maxFailures || Tried(cfg, h) then |h| else Opening(cfg, h)
                                     case _ => Opening(cfg, h)
    ensures FailureStreak(h + [c]) == match c case Success => 0 case Failure(_) => FailureStreak(h) + 1 case _ => FailureStreak(h)
    ensures Run(cfg, h + [c]) == Next(cfg, Run(cfg, h), c)
  {
    assert (h + [c])[..|h|] == h;
  }

  /** The entry after any history: closed on a short streak; else half-open once it has been tried,
      and open before; opened at the time of the failure that opened it. */
  lemma {:induction false} StateIs(cfg: Settings, h: seq<Call>)
    requires cfg.Valid()
    ensures var e := Run(cfg, h);
            && e.failures == FailureStreak(h)
            && (Opening(cfg, h) >= 0 <==> FailureStreak(h) >= cfg.maxFailures)
            && e.state == (if FailureStreak(h) < cfg.maxFailures then Closed else if Tried(cfg, h) then HalfOpen else Open)
            && (Opening(cfg, h) >= 0 ==> e.openedAt == h[Opening(cfg, h)].now)
    decreases |h|
  {
    if h != [] {
      var g, c := h[..|h| - 1], h[|h| - 1];
      assert h == g + [c];
      StateIs(cfg, g);
      OpeningSnoc(cfg, g, c);
      if Opening(cfg, h) == Opening(cfg, g) {
        TriedSnoc(cfg, g, c);
      } else {
        assert c.Success? || c.Failure?;
      }
    }
  }

  /** An execution is admitted if and only if the streak of failures is short, or a cooldown has
      passed since the failure that opened the circuit and nobody has tried it since. */
  lemma AdmittedExactly(cfg: Settings, h: seq<Call>, now: int)
    requires cfg.Valid()
    ensures Admits(cfg, Run(cfg, h), now) <==> LetThrough(cfg, h, now)
  {
    StateIs(cfg, h);
  }

  /** A failure opens the circuit if and only if it is the opening failure of its history. */
  lemma OpensExactly(cfg: Settings, h: seq<Call>, now: int)
    requires cfg.Valid()
    ensures Run(cfg, h).state != Open && Next(cfg, Run(cfg, h), Failure(now)).state == Open
            <==> Opening(cfg, h + [Failure(now)]) == |h|
  {
    StateIs(cfg, h);
    OpeningSnoc(cfg, h, Failure(now));
  }

  /** One more call for a rule, in the history of all and in its own. */
  lemma Recorded(cfg: Settings, h: seq<RuleCall>, rule: string, c: Call)
    ensures var m := RunAll(cfg, h);
            var e := if rule in m then m[rule] else FRESH;
            && e == Run(cfg, CallsOf(h, rule)) && Run(cfg, CallsOf(h, rule) + [c]) == Next(cfg, e, c)
            && RunAll(cfg, h + [RuleCall(rule, c)]) == m[rule := Next(cfg, e, c)]
  {
    RulesAreIndependent(cfg, h, rule);
    assert (h + [RuleCall(rule, c)])[..|h|] == h;
    assert (CallsOf(h, rule) + [c])[..|CallsOf(h, rule)|] == CallsOf(h, rule);
  }

  // ----- probes: executions admitted while the circuit is not closed -----

  ghost predicate Probe(cfg: Settings, h: seq<Call>, i: int) {
    && 0 <= i < |h| && h[i].Allow?
    && Run(cfg, h[..i]).state != Closed && Admits(cfg, Run(cfg, h[..i]), h[i].now)
  }

  ghost predicate Clocked(h: seq<Call>) {
    forall i, j :: 0 <= i < j < |h| && !h[i].Success? && !h[j].Success? ==> h[i].now <= h[j].now
  }

  ghost predicate NoSuccess(h: seq<Call>, lo: int, hi: int) {
    forall k :: 0 <= lo <= k < hi <= |h| ==> !h[k].Success?
  }

  /** Between a probe and the next success the circuit is half-open, or open since a failure
      that came after the probe. */
  lemma {:induction false} AfterProbe(cfg: Settings, h: seq<Call>, i: nat, n: nat)
    requires cfg.Valid() && Clocked(h) && Probe(cfg, h, i) && i < n <= |h| && NoSuccess(h, i, n)
    ensures Run(cfg, h[..n]).state == HalfOpen
            || (Run(cfg, h[..n]).state == Open && Run(cfg, h[..n]).openedAt >= h[i].now)
    decreases n
  {
    assert h[..n][..n - 1] == h[..n - 1];
    if n > i + 1 {
      AfterProbe(cfg, h, i, n - 1);
      assert !h[n - 1].Success?;
    }
  }

  /** In a stretch without a success, probes are at least one cooldown apart. */
  lemma ProbesAreSpaced(cfg: Settings, h: seq<Call>, i: nat, j: nat)
    requires cfg.Valid() && Clocked(h) && Probe(cfg, h, i) && Probe(cfg, h, j) && i < j && NoSuccess(h, i, j)
    ensures h[j].now - h[i].now >= cfg.cooldown
  {
    AfterProbe(cfg, h, i, j);
  }

  ghost function ProbeCount(cfg: Settings, h: seq<Call>, lo: nat, hi: nat): nat
    requires lo <= hi <= |h|
    decreases hi
  {
    if lo == hi then 0
    else ProbeCount(cfg, h, lo, hi - 1) + if Probe(cfg, h, hi - 1) then 1 else 0
  }

  lemma OneMore(c: nat, cooldown: int, d: int, e: int)
    requires (c - 1) * cooldown <= d && e >= d + cooldown
    ensures c * cooldown <= e
  {
    assert (c - 1) * cooldown + cooldown == c * cooldown;
  }

  /** `last` is the latest probe of the stretch and the earlier ones took their cooldowns. */
  lemma {:induction false} ProbesTakeTime(cfg: Settings, h: seq<Call>, lo: nat, hi: nat, start: int) returns (last: nat)
    requires cfg.Valid() && Clocked(h) && lo <= hi <= |h| && NoSuccess(h, lo, hi)
    requires forall k :: lo <= k < hi && !h[k].Success? ==> start <= h[k].now
    requires ProbeCount(cfg, h, lo, hi) > 0
    ensures lo <= last < hi && Probe(cfg, h, last)
    ensures (ProbeCount(cfg, h, lo, hi) - 1) * cfg.cooldown <= h[last].now - start
    decreases hi
  {
    if !Probe(cfg, h, hi - 1) {
      last := ProbesTakeTime(cfg, h, lo, hi - 1, start);
    } else {
      last := hi - 1;
      if ProbeCount(cfg, h, lo, hi - 1) > 0 {
        var prev := ProbesTakeTime(cfg, h, lo, hi - 1, start);
        ProbesAreSpaced(cfg, h, prev, last);
        OneMore(ProbeCount(cfg, h, lo, hi - 1), cfg.cooldown, h[prev].now - start, h[last].now - start);
      }
    }
  }

  lemma QuotientBound(count: nat, cooldown: int, elapsed: int)
    requires cooldown > 0 && count > 0 && (count - 1) * cooldown <= elapsed
    ensures count <= 1 + elapsed / cooldown
  {
    var q := elapsed / cooldown;
    assert elapsed < (q + 1) * cooldown;
    if q + 1 <= count - 1 {
      ScaleMonotone(q + 1, count - 1, cooldown);
    }
  }

  /** So a stretch without a success admits at most one probe per cooldown, plus one. */
  lemma ProbesAreBounded(cfg: Settings, h: seq<Call>, lo: nat, hi: nat, start: int, end: int)
    requires cfg.Valid() && Clocked(h) && lo <= hi <= |h| && NoSuccess(h, lo, hi) && start <= end
    requires forall k :: lo <= k < hi && !h[k].Success? ==> start <= h[k].now <= end
    ensures ProbeCount(cfg, h, lo, hi) <= 1 + (end - start) / cfg.cooldown
  {
    var c := ProbeCount(cfg, h, lo, hi);
    if c > 0 {
      var last := ProbesTakeTime(cfg, h, lo, hi, start);
      assert h[last].Allow?;
      QuotientBound(c, cfg.cooldown, end - start);
    }
  }

  /** Reading the state is not harmless: once a cooled-down circuit has been read it is
      half-open with no probe under way, and no later request is admitted until somebody
      reports a success or a failure. */
  lemma {:induction false} ReadingBlocksProbes(cfg: Settings, h: seq<Call>, now: int, more: seq<Call>, i: nat)
    requires cfg.Valid() && Run(cfg, h).state == Open && now - Run(cfg, h).openedAt >= cfg.cooldown
    requires forall k :: 0 <= k < |more| ==> more[k].Allow? || more[k].GetState?
    requires i <= |more|
    ensures Run(cfg, h + [GetState(now)] + more[..i]).state == HalfOpen
    ensures i < |more| && more[i].Allow? ==> !Admits(cfg, Run(cfg, h + [GetState(now)] + more[..i]), more[i].now)
    decreases i
  {
    var g := h + [GetState(now)];
    if i == 0 {
      assert g + more[..0] == g && g[..|g| - 1] == h;
    } else {
      ReadingBlocksProbes(cfg, h, now, more, i - 1);
      var w := g + more[..i];
      assert w[..|w| - 1] == g + more[..i - 1] && w[|w| - 1] == more[i - 1];
    }
  }

  // ----- all rules -----

  datatype RuleCall = RuleCall(rule: string, call: Call)

  /** What the breaker's methods make of an interleaved history of calls. */
  function RunAll(cfg: Settings, h: seq<RuleCall>): map<string, Entry> {
    if h == [] then map[]
    else
      var m := RunAll(cfg, h[..|h| - 1]);
      var c := h[|h| - 1];
      m[c.rule := Next(cfg, if c.rule in m then m[c.rule] else FRESH, c.call)]
  }

  function CallsOf(h: seq<RuleCall>, rule: string): seq<Call> {
    if h == [] then []
    else CallsOf(h[..|h| - 1], rule) + if h[|h| - 1].rule == rule then [h[|h| - 1].call] else []
  }

  /** Rules never affect each other: an entry is what its own calls alone make of it. */
  lemma {:induction false} RulesAreIndependent(cfg: Settings, h: seq<RuleCall>, rule: string)
    ensures rule in RunAll(cfg, h) <==> CallsOf(h, rule) != []
    ensures rule in RunAll(cfg, h) ==> RunAll(cfg, h)[rule] == Run(cfg, CallsOf(h, rule))
    decreases |h|
  {
    if h != [] {
      RulesAreIndependent(cfg, h[..|h| - 1], rule);
      var calls := CallsOf(h[..|h| - 1], rule);
      var c := h[|h| - 1];
      if c.rule == rule {
        assert (calls + [c.call])[..|calls|] == calls;
      } else {
        assert calls + [] == calls;
      }
    }
  }
}
