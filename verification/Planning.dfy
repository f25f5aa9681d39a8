/** The planning pipeline: rank, synthesise, validate, create. Each stage may be answered by a
    prompt executor instead of the built-in heuristics. */
module Planning {
  import opened Options
  import opened Text

  // ----- modes -----

  datatype Mode = Mode(maxTasks: nat, prioritizeFailures: bool, allowNew: bool, boost: real)

  const STANDARD := Mode(3, false, true, 1.0)

  /** Unknown names get the standard mode. */
  function ModeOf(name: string): Mode {
    if name == "focused" then Mode(2, false, false, 1.5)
    else if name == "recovery" then Mode(5, true, false, 0.5)
    else if name == "maintenance" then Mode(1, true, false, 1.0)
    else STANDARD
  }

  // ----- stage outputs -----

  /** A list a stage hands on. What an executor returns is decoded JSON: the next stage looks for
      a list of the built-in type, does not find one, and reads nothing. */
  datatype Output<T> = Native(items: seq<T>) | Decoded

  function Read<T>(o: Output<T>): seq<T> {
    match o
    case Native(items) => items
    case Decoded => []
  }

  datatype Severity = Critical | Important | Minor | Unrated

  datatype Gap = Gap(description: string, severity: Severity, workstream: string)

  datatype Candidate = Candidate(workstream: string, score: Option<real>, nextAction: string)

  datatype Opportunity = Opportunity(description: string)

  datatype Source = FromRecovery | FromContinuity | FromGap | FromOpportunity

  datatype Item = Item(rank: nat, source: Source, workstream: string, description: string, score: real)

  datatype Proposal = Proposal(title: string, change: bool, priority: int, workstream: string)

  datatype Approval = Approval(index: int, approved: bool)

  // ----- ranking -----

  function CriticalOnly(gaps: seq<Gap>): seq<Gap> {
    if gaps == [] then []
    else CriticalOnly(gaps[..|gaps| - 1]) + if gaps[|gaps| - 1].severity == Critical then [gaps[|gaps| - 1]] else []
  }

  function GapScore(s: Severity): real {
    match s
    case Critical => 0.9
    case Important => 0.7
    case Minor => 0.3
    case Unrated => 0.5
  }

  function CandidateScore(c: Candidate, boost: real): real {
    match c.score
    case None => 0.5
    case Some(s) => if s * boost > 1.0 then 1.0 else s * boost
  }

  function RecoveryItem(g: Gap, rank: nat): Item {
    Item(rank, FromRecovery, g.workstream, g.description, 0.95)
  }

  function ContinuityItem(c: Candidate, boost: real, rank: nat): Item {
    Item(rank, FromContinuity, c.workstream, c.nextAction, CandidateScore(c, boost))
  }

  function GapItem(g: Gap, rank: nat): Item {
    Item(rank, FromGap, g.workstream, g.description, GapScore(g.severity))
  }

  function OpportunityItem(o: Opportunity, rank: nat): Item {
    Item(rank, FromOpportunity, "", o.description, 0.4)
  }

  /** The items in order, numbered from `rank`. */
  function Recovery(gaps: seq<Gap>, rank: nat): seq<Item> {
    seq(|gaps|, i requires 0 <= i < |gaps| => RecoveryItem(gaps[i], rank + i))
  }

  function Continuations(cs: seq<Candidate>, boost: real, rank: nat): seq<Item> {
    seq(|cs|, i requires 0 <= i < |cs| => ContinuityItem(cs[i], boost, rank + i))
  }

  function GapItems(gaps: seq<Gap>, rank: nat): seq<Item> {
    seq(|gaps|, i requires 0 <= i < |gaps| => GapItem(gaps[i], rank + i))
  }

  function Opportunities(os: seq<Opportunity>, rank: nat): seq<Item> {
    seq(|os|, i requires 0 <= i < |os| => OpportunityItem(os[i], rank + i))
  }

  /** Recovery first where the mode asks for it, then continuations, gaps and opportunities. */
  function Base(mode: Mode, cs: seq<Candidate>, gaps: seq<Gap>): seq<Item> {
    var first := if mode.prioritizeFailures then Recovery(CriticalOnly(gaps), 1) else [];
    first + Continuations(cs, mode.boost, 1 + |first|) + GapItems(gaps, 1 + |first| + |cs|)
  }

  method Prioritize(modeName: string, candidates: Output<Candidate>, gaps: Output<Gap>, opportunities: Output<Opportunity>)
    returns (ranked: seq<Item>, deferred: seq<string>)
    ensures (ranked, deferred) == Ranking(ModeOf(modeName), Read(candidates), Read(gaps), Read(opportunities))
  {
    var mode := ModeOf(modeName);
    var gs, os := Read(gaps), Read(opportunities);
    deferred := [];
    var rank;
    ranked, rank := RankBase(mode, Read(candidates), gs);
    ghost var base := ranked;
    ranked, rank := AppendOpportunities(ranked, rank, os);
    assert ranked == base + Opportunities(os, 1 + |base|);
    if !mode.allowNew {
      BaseIsOld(mode, Read(candidates), gs);
      ranked, deferred := Defer(ranked, base, Opportunities(os, 1 + |base|));
    }
  }

  method RankBase(mode: Mode, candidates: seq<Candidate>, gaps: seq<Gap>) returns (ranked: seq<Item>, rank: nat)
    ensures ranked == Base(mode, candidates, gaps) && rank == 1 + |ranked|
  {
    ranked, rank := [], 1;
    if mode.prioritizeFailures {
      ranked, rank := AppendCritical(gaps);
    }
    ranked, rank := AppendContinuations(ranked, rank, candidates, mode.boost);
    ranked, rank := AppendGaps(ranked, rank, gaps);
  }

  method AppendCritical(gaps: seq<Gap>) returns (ranked: seq<Item>, rank: nat)
    ensures ranked == Recovery(CriticalOnly(gaps), 1) && rank == 1 + |ranked|
  {
    ranked, rank := [], 1;
    for i := 0 to |gaps|
      invariant ranked == Recovery(CriticalOnly(gaps[..i]), 1) && rank == 1 + |ranked|
    {
      assert gaps[..i + 1][..i] == gaps[..i];
      if gaps[i].severity == Critical {
        ranked := ranked + [RecoveryItem(gaps[i], rank)];
        rank := rank + 1;
      }
    }
    assert gaps[..|gaps|] == gaps;
  }

  method AppendContinuations(before: seq<Item>, next: nat, cs: seq<Candidate>, boost: real) returns (ranked: seq<Item>, rank: nat)
    ensures ranked == before + Continuations(cs, boost, next) && rank == next + |cs|
  {
    ranked, rank := before, next;
    for i := 0 to |cs|
      invariant ranked == before + Continuations(cs[..i], boost, next) && rank == next + i
    {
      ranked := ranked + [ContinuityItem(cs[i], boost, rank)];
      rank := rank + 1;
    }
    assert cs[..|cs|] == cs;
  }

  method AppendGaps(before: seq<Item>, next: nat, gaps: seq<Gap>) returns (ranked: seq<Item>, rank: nat)
    ensures ranked == before + GapItems(gaps, next) && rank == next + |gaps|
  {
    ranked, rank := before, next;
    for i := 0 to |gaps|
      invariant ranked == before + GapItems(gaps[..i], next) && rank == next + i
    {
      ranked := ranked + [GapItem(gaps[i], rank)];
      rank := rank + 1;
    }
    assert gaps[..|gaps|] == gaps;
  }

  method AppendOpportunities(before: seq<Item>, next: nat, os: seq<Opportunity>) returns (ranked: seq<Item>, rank: nat)
    ensures ranked == before + Opportunities(os, next) && rank == next + |os|
  {
    ranked, rank := before, next;
    for i := 0 to |os|
      invariant ranked == before + Opportunities(os[..i], next) && rank == next + i
    {
      ranked := ranked + [OpportunityItem(os[i], rank)];
      rank := rank + 1;
    }
    assert os[..|os|] == os;
  }

  function Descriptions(items: seq<Item>): seq<string> {
    seq(|items|, i requires 0 <= i < |items| => items[i].description)
  }

  predicate IsNew(item: Item) {
    item.source == FromOpportunity && item.workstream == ""
  }

  lemma BaseIsOld(mode: Mode, cs: seq<Candidate>, gaps: seq<Gap>)
    ensures var base := Base(mode, cs, gaps); forall i :: 0 <= i < |base| ==> !IsNew(base[i])
  {
  }

  /** The filter of the modes that allow no new workstreams. */
  method Defer(ranked: seq<Item>, ghost base: seq<Item>, ghost opps: seq<Item>) returns (filtered: seq<Item>, deferred: seq<string>)
    requires ranked == base + opps
    requires forall i :: 0 <= i < |base| ==> !IsNew(base[i])
    requires forall i :: 0 <= i < |opps| ==> IsNew(opps[i])
    ensures filtered == base && deferred == Descriptions(opps)
  {
    filtered, deferred := [], [];
    for i := 0 to |ranked|
      invariant filtered == if i <= |base| then base[..i] else base
      invariant deferred == if i <= |base| then [] else Descriptions(opps[..i - |base|])
    {
      if IsNew(ranked[i]) {
        deferred := deferred + [ranked[i].description];
      } else {
        filtered := filtered + [ranked[i]];
      }
    }
    assert opps[..|opps|] == opps;
  }

  /** The result of the ranking: what `Prioritize` returns. */
  function Ranking(mode: Mode, cs: seq<Candidate>, gaps: seq<Gap>, os: seq<Opportunity>): (seq<Item>, seq<string>) {
    var base := Base(mode, cs, gaps);
    var opps := Opportunities(os, 1 + |base|);
    if mode.allowNew then (base + opps, []) else (base, Descriptions(opps))
  }

  /** Every candidate, gap and opportunity is ranked or deferred, critical gaps once more where
      failures come first, and only opportunities are deferred. */
  lemma RankingConserves(mode: Mode, cs: seq<Candidate>, gaps: seq<Gap>, os: seq<Opportunity>, k: nat)
    ensures var (ranked, deferred) := Ranking(mode, cs, gaps, os);
            && |ranked| + |deferred| == (if mode.prioritizeFailures then |CriticalOnly(gaps)| else 0) + |cs| + |gaps| + |os|
            && (k < |deferred| ==> deferred[k] == os[k].description)
  {
  }

  /** Ranks are 1, 2, 3 and so on without holes, deferring or not, and no score exceeds 1. */
  lemma RankingIsNumbered(mode: Mode, cs: seq<Candidate>, gaps: seq<Gap>, os: seq<Opportunity>)
    requires forall i :: 0 <= i < |cs| && cs[i].score.Some? ==> cs[i].score.value >= 0.0
    requires mode.boost >= 0.0
    ensures Numbered(Ranking(mode, cs, gaps, os).0, 1)
  {
    BaseIsNumbered(mode, cs, gaps);
    var base := Base(mode, cs, gaps);
    NumberedAppend(base, Opportunities(os, 1 + |base|), 1);
  }

  lemma BaseIsNumbered(mode: Mode, cs: seq<Candidate>, gaps: seq<Gap>)
    requires forall i :: 0 <= i < |cs| && cs[i].score.Some? ==> cs[i].score.value >= 0.0
    requires mode.boost >= 0.0
    ensures Numbered(Base(mode, cs, gaps), 1)
  {
    var first := if mode.prioritizeFailures then Recovery(CriticalOnly(gaps), 1) else [];
    ScoresOk(cs, mode.boost);
    NumberedAppend(first, Continuations(cs, mode.boost, 1 + |first|), 1);
    NumberedAppend(first + Continuations(cs, mode.boost, 1 + |first|), GapItems(gaps, 1 + |first| + |cs|), 1);
  }

  /** Ranks count up from `rank` without holes; scores lie between 0 and 1. */
  ghost predicate Numbered(items: seq<Item>, rank: nat) {
    forall k :: 0 <= k < |items| ==> items[k].rank == rank + k && 0.0 <= items[k].score <= 1.0
  }

  lemma NumberedAppend(a: seq<Item>, b: seq<Item>, rank: nat)
    requires Numbered(a, rank) && Numbered(b, rank + |a|)
    ensures Numbered(a + b, rank)
  {
  }

  lemma ScoresOk(cs: seq<Candidate>, boost: real)
    requires forall i :: 0 <= i < |cs| && cs[i].score.Some? ==> cs[i].score.value >= 0.0
    requires boost >= 0.0
    ensures forall i :: 0 <= i < |cs| ==> 0.0 <= CandidateScore(cs[i], boost) <= 1.0
  {
  }

  // ----- the ranking, position by position -----

  ghost predicate IsCritical(gaps: seq<Gap>, i: int) {
    0 <= i < |gaps| && gaps[i].severity == Critical
  }

  /** `at` lists the critical gaps, in order. */
  ghost predicate CriticalAt(gaps: seq<Gap>, at: seq<nat>) {
    && Increasing(at, |gaps|)
    && forall i {:trigger IsCritical(gaps, i)} :: 0 <= i < |gaps| ==> (i in at <==> IsCritical(gaps, i))
  }

  lemma {:induction false} CriticalAre(gaps: seq<Gap>) returns (at: seq<nat>)
    ensures CriticalAt(gaps, at) && |CriticalOnly(gaps)| == |at|
    ensures forall k :: 0 <= k < |at| ==> CriticalOnly(gaps)[k] == gaps[at[k]]
    decreases |gaps|
  {
    if gaps == [] {
      at := [];
    } else {
      var n := |gaps| - 1;
      var before := CriticalAre(gaps[..n]);
      CriticalSnoc(gaps, n, before);
      at := if gaps[n].severity == Critical then before + [n] else before;
    }
  }

  lemma CriticalSnoc(gaps: seq<Gap>, n: nat, before: seq<nat>)
    requires n + 1 == |gaps| && CriticalAt(gaps[..n], before)
    ensures CriticalAt(gaps, if gaps[n].severity == Critical then before + [n] else before)
  {
    var at := if gaps[n].severity == Critical then before + [n] else before;
    forall i | 0 <= i < |gaps| ensures i in at <==> IsCritical(gaps, i) {
      assert i < n ==> (i in before <==> IsCritical(gaps[..n], i));
      assert at == before + [n] ==> at[|before|] == n;
    }
  }

  /** 0.5 without a score; else the boosted score, at most 1. */
  ghost predicate ScoredAs(score: real, c: Candidate, boost: real) {
    match c.score
    case None => score == 0.5
    case Some(x) => score <= 1.0 && score <= x * boost && (score == 1.0 || score == x * boost)
  }

  ghost predicate GapScoredAs(score: real, severity: Severity) {
    && (severity == Critical ==> score == 0.9) && (severity == Important ==> score == 0.7)
    && (severity == Minor ==> score == 0.3) && (severity == Unrated ==> score == 0.5)
  }

  /** The items stand for the critical gaps, for all candidates, gaps or opportunities, in order. */
  ghost predicate StandForCritical(items: seq<Item>, gaps: seq<Gap>, at: seq<nat>) {
    && |items| == |at| && CriticalAt(gaps, at)
    && forall k :: 0 <= k < |at| ==>
         var r, g := items[k], gaps[at[k]];
         r.source == FromRecovery && r.workstream == g.workstream && r.description == g.description && r.score == 0.95
  }

  ghost predicate StandForCandidates(items: seq<Item>, cs: seq<Candidate>, boost: real) {
    && |items| == |cs|
    && forall k :: 0 <= k < |cs| ==>
         var r, c := items[k], cs[k];
         r.source == FromContinuity && r.workstream == c.workstream && r.description == c.nextAction && ScoredAs(r.score, c, boost)
  }

  ghost predicate StandForGaps(items: seq<Item>, gaps: seq<Gap>) {
    && |items| == |gaps|
    && forall k :: 0 <= k < |gaps| ==>
         var r, g := items[k], gaps[k];
         r.source == FromGap && r.workstream == g.workstream && r.description == g.description && GapScoredAs(r.score, g.severity)
  }

  ghost predicate StandForOpportunities(items: seq<Item>, os: seq<Opportunity>) {
    && |items| == |os|
    && forall k :: 0 <= k < |os| ==>
         var r := items[k];
         r.source == FromOpportunity && r.workstream == "" && r.description == os[k].description && r.score == 0.4
  }

  lemma RecoveryStands(gaps: seq<Gap>) returns (at: seq<nat>)
    ensures CriticalAt(gaps, at) && |at| == |CriticalOnly(gaps)| && StandForCritical(Recovery(CriticalOnly(gaps), 1), gaps, at)
  {
    at := CriticalAre(gaps);
  }

  lemma FourSlices(r: seq<Item>, a: seq<Item>, b: seq<Item>, c: seq<Item>, d: seq<Item>)
    requires r == a + b + c + d
    ensures |r| == |a| + |b| + |c| + |d| && r[..|a|] == a && r[|a|..|a| + |b|] == b
    ensures r[|a| + |b|..|a| + |b| + |c|] == c && r[|a| + |b| + |c|..] == d
  {
  }

  /** The ranking of a mode in its four parts. */
  lemma RankingInParts(mode: Mode, cs: seq<Candidate>, gaps: seq<Gap>, os: seq<Opportunity>)
    returns (first: seq<Item>, second: seq<Item>, third: seq<Item>, fourth: seq<Item>)
    ensures first == if mode.prioritizeFailures then Recovery(CriticalOnly(gaps), 1) else []
    ensures second == Continuations(cs, mode.boost, 1 + |first|) && third == GapItems(gaps, 1 + |first| + |cs|)
    ensures fourth == if mode.allowNew then Opportunities(os, 1 + |first| + |cs| + |gaps|) else []
    ensures Ranking(mode, cs, gaps, os).0 == first + second + third + fourth
    ensures Ranking(mode, cs, gaps, os).1 == if mode.allowNew then [] else Descriptions(Opportunities(os, 1 + |first| + |cs| + |gaps|))
  {
    first := if mode.prioritizeFailures then Recovery(CriticalOnly(gaps), 1) else [];
    second, third := Continuations(cs, mode.boost, 1 + |first|), GapItems(gaps, 1 + |first| + |cs|);
    fourth := if mode.allowNew then Opportunities(os, 1 + |first| + |cs| + |gaps|) else [];
    var base := Base(mode, cs, gaps);
    assert base == first + second + third && |base| == |first| + |cs| + |gaps|;
    if !mode.allowNew {
      assert base + fourth == base;
    }
  }

  lemma PartsStand(boost: real, cs: seq<Candidate>, gaps: seq<Gap>, os: seq<Opportunity>, rank: nat)
    ensures StandForCandidates(Continuations(cs, boost, rank), cs, boost) && StandForGaps(GapItems(gaps, rank), gaps)
    ensures StandForOpportunities(Opportunities(os, rank), os)
    ensures Descriptions(Opportunities(os, rank)) == seq(|os|, k requires 0 <= k < |os| => os[k].description)
  {
  }

  lemma StandingParts(mode: Mode, cs: seq<Candidate>, gaps: seq<Gap>, os: seq<Opportunity>)
    returns (first: seq<Item>, second: seq<Item>, third: seq<Item>, fourth: seq<Item>)
    ensures Ranking(mode, cs, gaps, os).0 == first + second + third + fourth
    ensures first == if mode.prioritizeFailures then Recovery(CriticalOnly(gaps), 1) else []
    ensures StandForCandidates(second, cs, mode.boost) && StandForGaps(third, gaps)
    ensures if mode.allowNew then StandForOpportunities(fourth, os) else fourth == []
    ensures Ranking(mode, cs, gaps, os).1 == if mode.allowNew then [] else seq(|os|, k requires 0 <= k < |os| => os[k].description)
  {
    first, second, third, fourth := RankingInParts(mode, cs, gaps, os);
    PartsStand(mode.boost, cs, gaps, os, 1 + |first|);
    PartsStand(mode.boost, cs, gaps, os, 1 + |first| + |cs|);
    PartsStand(mode.boost, cs, gaps, os, 1 + |first| + |cs| + |gaps|);
  }

  lemma RanksCountUp(mode: Mode, cs: seq<Candidate>, gaps: seq<Gap>, os: seq<Opportunity>, k: nat)
    requires k < |Ranking(mode, cs, gaps, os).0|
    ensures Ranking(mode, cs, gaps, os).0[k].rank == k + 1
  {
  }

  /** What stands where in `ranked`: `n` critical gaps, all candidates, all gaps, and all
      opportunities or none. */
  ghost predicate Placed(ranked: seq<Item>, gaps: seq<Gap>, at: seq<nat>, n: nat, cs: seq<Candidate>, boost: real,
                         os: seq<Opportunity>, all: bool) {
    var m := n + |cs| + |gaps|;
    && m <= |ranked| && (forall k :: 0 <= k < |ranked| ==> ranked[k].rank == k + 1)
    && (n > 0 ==> StandForCritical(ranked[..n], gaps, at))
    && StandForCandidates(ranked[n..n + |cs|], cs, boost) && StandForGaps(ranked[n + |cs|..m], gaps)
    && if all then StandForOpportunities(ranked[m..], os) else |ranked| == m
  }

  lemma PlacedByMode(mode: Mode, cs: seq<Candidate>, gaps: seq<Gap>, os: seq<Opportunity>, at: seq<nat>)
    requires CriticalAt(gaps, at) && |at| == |CriticalOnly(gaps)| && StandForCritical(Recovery(CriticalOnly(gaps), 1), gaps, at)
    ensures Placed(Ranking(mode, cs, gaps, os).0, gaps, at, if mode.prioritizeFailures then |at| else 0, cs, mode.boost, os, mode.allowNew)
    ensures Ranking(mode, cs, gaps, os).1 == if mode.allowNew then [] else seq(|os|, k requires 0 <= k < |os| => os[k].description)
  {
    var ranked := Ranking(mode, cs, gaps, os).0;
    var first, second, third, fourth := StandingParts(mode, cs, gaps, os);
    forall k | 0 <= k < |ranked| ensures ranked[k].rank == k + 1 {
      RanksCountUp(mode, cs, gaps, os, k);
    }
    assert |first| == if mode.prioritizeFailures then |at| else 0;
    PlacedInParts(ranked, first, second, third, fourth, gaps, at, cs, mode.boost, os, mode.allowNew);
  }

  lemma PlacedInParts(ranked: seq<Item>, a: seq<Item>, b: seq<Item>, c: seq<Item>, d: seq<Item>, gaps: seq<Gap>, at: seq<nat>,
                      cs: seq<Candidate>, boost: real, os: seq<Opportunity>, all: bool)
    requires ranked == a + b + c + d && forall k :: 0 <= k < |ranked| ==> ranked[k].rank == k + 1
    requires |a| > 0 ==> StandForCritical(a, gaps, at)
    requires StandForCandidates(b, cs, boost) && StandForGaps(c, gaps) && if all then StandForOpportunities(d, os) else d == []
    ensures Placed(ranked, gaps, at, |a|, cs, boost, os, all)
  {
    FourSlices(ranked, a, b, c, d);
  }

  /** What stands where in the ranking of each mode: recovery and maintenance start with the
      critical gaps; then come all continuations, then all gaps, then, in the standard mode only,
      the opportunities, each in the order found. The other modes defer the opportunities. */
  lemma RankingByPosition(name: string, cs: seq<Candidate>, gaps: seq<Gap>, os: seq<Opportunity>) returns (at: seq<nat>)
    ensures CriticalAt(gaps, at)
    ensures var failing := name == "recovery" || name == "maintenance";
            var boost := if name == "focused" then 1.5 else if name == "recovery" then 0.5 else 1.0;
            var all := !failing && name != "focused";
            && Placed(Ranking(ModeOf(name), cs, gaps, os).0, gaps, at, if failing then |at| else 0, cs, boost, os, all)
            && Ranking(ModeOf(name), cs, gaps, os).1 == if all then [] else seq(|os|, k requires 0 <= k < |os| => os[k].description)
  {
    at := RecoveryStands(gaps);
    PlacedByMode(ModeOf(name), cs, gaps, os, at);
  }

  // ----- synthesis -----

  function ProposalOf(item: Item): Proposal {
    Proposal(item.description, item.source == FromGap, (item.score * 100.0).Floor, item.workstream)
  }

  predicate Eligible(item: Item, existing: set<string>) {
    item.description != "" && item.description !in existing
  }

  /** The proposals made from the first `n` items, of which at most `max` are considered. */
  function Proposed(items: seq<Item>, max: nat, existing: set<string>, n: nat): seq<Proposal>
    requires n <= |items|
  {
    if n == 0 then []
    else
      var before := Proposed(items, max, existing, n - 1);
      if n - 1 < max && Eligible(items[n - 1], existing) then before + [ProposalOf(items[n - 1])] else before
  }

  function Skipped(items: seq<Item>, max: nat, existing: set<string>, n: nat): seq<string>
    requires n <= |items|
  {
    if n == 0 then []
    else
      var before, desc := Skipped(items, max, existing, n - 1), items[n - 1].description;
      if n - 1 >= max || (desc in existing && desc != "") then before + [desc] else before
  }

  function EffectiveMax(maxTasks: int): nat {
    if maxTasks <= 0 then 3 else maxTasks
  }

  method Synthesize(ranked: Output<Item>, maxTasks: int, existing: set<string>)
    returns (proposed: seq<Proposal>, skipped: seq<string>)
    ensures var items := Read(ranked);
            && proposed == Proposed(items, EffectiveMax(maxTasks), existing, |items|)
            && skipped == Skipped(items, EffectiveMax(maxTasks), existing, |items|)
  {
    var items := Read(ranked);
    var max := maxTasks;
    if max <= 0 {
      max := 3;
    }
    proposed, skipped := [], [];
    for i := 0 to |items|
      invariant proposed == Proposed(items, max, existing, i) && skipped == Skipped(items, max, existing, i)
    {
      var desc := items[i].description;
      if i >= max {
        skipped := skipped + [desc];
        continue;
      }
      if desc == "" {
        continue;
      }
      if desc in existing {
        skipped := skipped + [desc];
        continue;
      }
      proposed := proposed + [ProposalOf(items[i])];
    }
  }

  ghost predicate Increasing(at: seq<nat>, n: nat) {
    (forall i :: 0 <= i < |at| ==> at[i] < n) && (forall i, j :: 0 <= i < j < |at| ==> at[i] < at[j])
  }

  /** `ps` are the proposals made from the items at the positions `at`, all of them eligible and
      among the first `max`. */
  ghost predicate MadeFrom(ps: seq<Proposal>, items: seq<Item>, at: seq<nat>, n: nat, max: nat, existing: set<string>) {
    && n <= |items| && |ps| == |at| && Increasing(at, n)
    && forall i :: 0 <= i < |at| ==> at[i] < max && Eligible(items[at[i]], existing) && ps[i] == ProposalOf(items[at[i]])
  }

  lemma MadeFromSnoc(ps: seq<Proposal>, items: seq<Item>, at: seq<nat>, n: nat, max: nat, existing: set<string>)
    requires MadeFrom(ps, items, at, n, max, existing) && n < |items| && n < max && Eligible(items[n], existing)
    ensures MadeFrom(ps + [ProposalOf(items[n])], items, at + [n], n + 1, max, existing)
  {
  }

  lemma MadeFromWiden(ps: seq<Proposal>, items: seq<Item>, at: seq<nat>, n: nat, max: nat, existing: set<string>)
    requires MadeFrom(ps, items, at, n, max, existing) && n < |items|
    ensures MadeFrom(ps, items, at, n + 1, max, existing)
  {
  }

  /** No eligible item among the first `max` is missing. */
  ghost predicate Complete(items: seq<Item>, at: seq<nat>, n: nat, max: nat, existing: set<string>) {
    n <= |items| && forall k :: 0 <= k < n && k < max && Eligible(items[k], existing) ==> k in at
  }

  lemma CompleteSnoc(items: seq<Item>, at: seq<nat>, n: nat, max: nat, existing: set<string>)
    requires Complete(items, at, n, max, existing) && n < |items|
    ensures Complete(items, at + [n], n + 1, max, existing)
    ensures !(n < max && Eligible(items[n], existing)) ==> Complete(items, at, n + 1, max, existing)
  {
    assert (at + [n])[|at|] == n;
    forall k | k in at ensures k in at + [n] {
      var i :| 0 <= i < |at| && at[i] == k;
      assert (at + [n])[i] == k;
    }
  }

  /** The proposals are exactly the eligible ones among the first `max` items, in rank order. */
  lemma {:induction false} ProposedAre(items: seq<Item>, max: nat, existing: set<string>, n: nat) returns (at: seq<nat>)
    requires n <= |items|
    ensures MadeFrom(Proposed(items, max, existing, n), items, at, n, max, existing)
    ensures |at| <= max && Complete(items, at, n, max, existing)
    decreases n
  {
    if n == 0 {
      at := [];
    } else {
      var last: nat := n - 1;
      at := ProposedAre(items, max, existing, last);
      var ps := Proposed(items, max, existing, last);
      CompleteSnoc(items, at, last, max, existing);
      if last < max && Eligible(items[last], existing) {
        MadeFromSnoc(ps, items, at, last, max, existing);
        at := at + [last];
        IncreasingIsShort(at, n);
      } else {
        MadeFromWiden(ps, items, at, last, max, existing);
      }
    }
  }

  /** Where every item is new, each of the first two, five, one or three is proposed: its description
      is the title, its score in percent the priority, and it is a change if it stands for a gap. */
  lemma TakesTheFirst(name: string, items: seq<Item>, existing: set<string>)
    requires forall i :: 0 <= i < |items| ==> items[i].description != "" && items[i].description !in existing
    ensures var limit := if name == "focused" then 2 else if name == "recovery" then 5 else if name == "maintenance" then 1 else 3;
            var ps := Proposed(items, ModeOf(name).maxTasks, existing, |items|);
            && |ps| == (if |items| < limit then |items| else limit)
            && forall i :: 0 <= i < |ps| ==>
                 ps[i] == Proposal(items[i].description, items[i].source == FromGap, (items[i].score * 100.0).Floor, items[i].workstream)
  {
    AllEligible(items, ModeOf(name).maxTasks, existing, |items|);
  }

  lemma {:induction false} AllEligible(items: seq<Item>, max: nat, existing: set<string>, n: nat)
    requires n <= |items| && forall i :: 0 <= i < |items| ==> Eligible(items[i], existing)
    ensures var ps := Proposed(items, max, existing, n);
            |ps| == (if n < max then n else max) && forall i :: 0 <= i < |ps| ==> ps[i] == ProposalOf(items[i])
    decreases n
  {
    if n > 0 {
      AllEligible(items, max, existing, n - 1);
    }
  }

  lemma {:induction false} IncreasingIsShort(at: seq<nat>, n: nat)
    requires Increasing(at, n)
    ensures |at| <= n
    decreases |at|
  {
    if at != [] {
      IncreasingIsShort(at[..|at| - 1], at[|at| - 1]);
    }
  }

  /** Two items that are considered, eligible, and have the same description. */
  ghost predicate SameEligible(items: seq<Item>, max: nat, existing: set<string>, k: int, l: int) {
    0 <= k < l < |items| && l < max && items[k].description == items[l].description && Eligible(items[k], existing)
  }

  ghost predicate SameTitle(items: seq<Item>, max: nat, existing: set<string>, i: int, j: int) {
    var ps := Proposed(items, max, existing, |items|);
    0 <= i < j < |ps| && ps[i].title == ps[j].title
  }

  lemma RepeatedTitle(items: seq<Item>, max: nat, existing: set<string>, k: int, l: int) returns (i: int, j: int)
    requires SameEligible(items, max, existing, k, l)
    ensures SameTitle(items, max, existing, i, j)
  {
    var at := ProposedAre(items, max, existing, |items|);
    assert k in at && l in at;
    i :| 0 <= i < |at| && at[i] == k;
    j :| 0 <= j < |at| && at[j] == l;
  }

  lemma RepeatedItem(items: seq<Item>, max: nat, existing: set<string>, i: int, j: int) returns (k: int, l: int)
    requires SameTitle(items, max, existing, i, j)
    ensures SameEligible(items, max, existing, k, l)
  {
    var at := ProposedAre(items, max, existing, |items|);
    k, l := at[i], at[j];
  }

  /** Titles are not compared with each other: two proposals have the same title if and only if
      two of the items considered have the same eligible description. */
  lemma RepeatsExactly(items: seq<Item>, max: nat, existing: set<string>)
    ensures (exists i, j :: SameTitle(items, max, existing, i, j))
            <==> exists k, l :: SameEligible(items, max, existing, k, l)
  {
    if exists k, l :: SameEligible(items, max, existing, k, l) {
      var k, l :| SameEligible(items, max, existing, k, l);
      var i, j := RepeatedTitle(items, max, existing, k, l);
    }
    if exists i, j :: SameTitle(items, max, existing, i, j) {
      var i, j :| SameTitle(items, max, existing, i, j);
      var k, l := RepeatedItem(items, max, existing, i, j);
    }
  }

  /** And they repeat: where failures come first, a single critical gap is proposed twice. */
  lemma RecoveryRepeats(g: Gap, existing: set<string>)
    requires g.severity == Critical && g.description != "" && g.description !in existing
    ensures var items := Ranking(ModeOf("recovery"), [], [g], []).0;
            var ps := Proposed(items, ModeOf("recovery").maxTasks, existing, |items|);
            |ps| == 2 && ps[0].title == ps[1].title == g.description
  {
    var a, b := RecoveryItem(g, 1), GapItem(g, 2);
    var mode := ModeOf("recovery");
    RankedTwice(mode, g, a, b);
    ProposedTwo(Ranking(mode, [], [g], []).0, a, b, mode.maxTasks, existing);
  }

  lemma RankedTwice(mode: Mode, g: Gap, a: Item, b: Item)
    requires mode.prioritizeFailures && !mode.allowNew && g.severity == Critical
    requires a == RecoveryItem(g, 1) && b == GapItem(g, 2)
    ensures Ranking(mode, [], [g], []).0 == [a, b]
  {
    assert CriticalOnly([g]) == [g] by { assert [g][..0] == []; }
    assert Recovery([g], 1) == [a] && GapItems([g], 2) == [b] && Continuations([], mode.boost, 2) == [];
    assert [a] + [] + [b] == [a, b];
  }

  lemma ProposedTwo(items: seq<Item>, a: Item, b: Item, max: nat, existing: set<string>)
    requires items == [a, b] && max >= 2 && Eligible(a, existing) && Eligible(b, existing)
    ensures Proposed(items, max, existing, |items|) == [ProposalOf(a), ProposalOf(b)]
  {
    assert Proposed(items, max, existing, 0) == [];
    assert Proposed(items, max, existing, 1) == [ProposalOf(a)];
  }

  // ----- validation -----

  function Lower(s: string): string {
    seq(|s|, i requires 0 <= i < |s| => if 'A' <= s[i] <= 'Z' then (s[i] as int + 32) as char else s[i])
  }

  predicate ContainsIgnoreCase(s: string, sub: string) {
    sub != "" && Index(Lower(s), Lower(sub)) >= 0
  }

  predicate Aligned(title: string, goals: seq<string>) {
    exists i :: 0 <= i < |goals| && ContainsIgnoreCase(title, goals[i])
  }

  function Unaligned(ps: seq<Proposal>, goals: seq<string>): nat {
    if ps == [] then 0
    else Unaligned(ps[..|ps| - 1], goals) + if Aligned(ps[|ps| - 1].title, goals) then 0 else 1
  }

  /** The heuristic approves everything; what does not mention a goal costs coherence. */
  method AntiDrift(goals: seq<string>, proposed: Output<Proposal>) returns (approvals: seq<Approval>, coherence: real)
    ensures |approvals| == |Read(proposed)| && forall i :: 0 <= i < |approvals| ==> approvals[i] == Approval(i, true)
    ensures goals == [] ==> coherence == 0.5
    ensures goals != [] ==> coherence == if Unaligned(Read(proposed), goals) > 10 then 0.0
                                         else 1.0 - 0.1 * Unaligned(Read(proposed), goals) as real
  {
    var ps := Read(proposed);
    approvals, coherence := [], 1.0;
    if goals == [] {
      coherence := 0.5;
    }
    for i := 0 to |ps|
      invariant |approvals| == i && forall k :: 0 <= k < i ==> approvals[k] == Approval(k, true)
      invariant coherence == if goals == [] then 0.5 else 1.0 - 0.1 * Unaligned(ps[..i], goals) as real
    {
      assert ps[..i + 1][..i] == ps[..i];
      if goals != [] && !Aligned(ps[i].title, goals) {
        coherence := coherence - 0.1;
      }
      approvals := approvals + [Approval(i, true)];
    }
    assert ps[..|ps|] == ps;
    if coherence < 0.0 {
      coherence := 0.0;
    }
  }

  // ----- creation -----

  /** Whether proposal `i` may be created: listed as approved, or nothing is listed at all. */
  predicate Admitted(approvals: seq<Approval>, i: nat) {
    approvals == [] || exists k :: 0 <= k < |approvals| && approvals[k] == Approval(i, true)
  }

  /** The proposals of the first `n` that are created; `creates` says which insertions succeed. */
  function CreatedFrom(ps: seq<Proposal>, approvals: seq<Approval>, creates: nat -> bool, n: nat): seq<Proposal>
    requires n <= |ps|
  {
    if n == 0 then []
    else
      var before := CreatedFrom(ps, approvals, creates, n - 1);
      if Admitted(approvals, n - 1) && creates(n - 1) then before + [ps[n - 1]] else before
  }

  /** A validation that admits every proposal is none. */
  lemma {:induction false} AllAdmitted(ps: seq<Proposal>, approvals: seq<Approval>, creates: nat -> bool, n: nat)
    requires n <= |ps| && forall i :: 0 <= i < n ==> Admitted(approvals, i)
    ensures CreatedFrom(ps, approvals, creates, n) == CreatedFrom(ps, [], creates, n)
    decreases n
  {
    if n > 0 {
      AllAdmitted(ps, approvals, creates, n - 1);
    }
  }

  ghost predicate SomeOf(cs: seq<Proposal>, ps: seq<Proposal>, at: seq<nat>, n: nat) {
    n <= |ps| && |cs| == |at| && Increasing(at, n) && forall i :: 0 <= i < |at| ==> cs[i] == ps[at[i]]
  }

  lemma SomeOfSnoc(cs: seq<Proposal>, ps: seq<Proposal>, at: seq<nat>, n: nat)
    requires SomeOf(cs, ps, at, n) && n < |ps|
    ensures SomeOf(cs + [ps[n]], ps, at + [n], n + 1)
  {
  }

  lemma SomeOfWiden(cs: seq<Proposal>, ps: seq<Proposal>, at: seq<nat>, n: nat)
    requires SomeOf(cs, ps, at, n) && n < |ps|
    ensures SomeOf(cs, ps, at, n + 1)
  {
  }

  /** Proposal `i` is admitted and its insertion succeeds. */
  ghost predicate IsCreated(approvals: seq<Approval>, creates: nat -> bool, i: nat) {
    Admitted(approvals, i) && creates(i)
  }

  /** Exactly the admitted proposals whose insertion succeeds are created, in order. */
  lemma {:induction false} CreatedAre(ps: seq<Proposal>, approvals: seq<Approval>, creates: nat -> bool, n: nat) returns (at: seq<nat>)
    requires n <= |ps|
    ensures SomeOf(CreatedFrom(ps, approvals, creates, n), ps, at, n)
    ensures forall i {:trigger IsCreated(approvals, creates, i)} :: 0 <= i < n ==> (i in at <==> IsCreated(approvals, creates, i))
    decreases n
  {
    if n == 0 {
      at := [];
    } else {
      var last: nat := n - 1;
      var before := CreatedAre(ps, approvals, creates, last);
      at := before;
      var cs := CreatedFrom(ps, approvals, creates, last);
      var taken := Admitted(approvals, last) && creates(last);
      assert CreatedFrom(ps, approvals, creates, n) == if taken then cs + [ps[last]] else cs;
      assert last !in before;
      if taken {
        SomeOfSnoc(cs, ps, before, last);
        at := before + [last];
        assert at[|before|] == last;
      } else {
        SomeOfWiden(cs, ps, before, last);
      }
    }
  }

  // ----- continuations come first -----

  /** Proposal `i` continues the workstream of the candidate. */
  ghost predicate Continues(ps: seq<Proposal>, i: int, c: Candidate) {
    0 <= i < |ps| && ps[i].title == c.nextAction && ps[i].workstream == c.workstream && !ps[i].change
  }

  /** The candidate's next action is proposed, and created unless its insertion fails. */
  ghost predicate Served(ps: seq<Proposal>, created: seq<Proposal>, creates: nat -> bool, c: Candidate) {
    exists i :: Continues(ps, i, c) && (creates(i) ==> ps[i] in created)
  }

  /** When a change for a gap is created, so is every continuation that is new. */
  ghost predicate ContinuationsServed(ps: seq<Proposal>, created: seq<Proposal>, creates: nat -> bool, cs: seq<Candidate>, existing: set<string>) {
    (exists p :: p in created && p.change) ==>
      forall k :: 0 <= k < |cs| && cs[k].nextAction != "" && cs[k].nextAction !in existing ==> Served(ps, created, creates, cs[k])
  }

  lemma ContinuationsComeFirst(name: string, cs: seq<Candidate>, gaps: seq<Gap>, os: seq<Opportunity>, existing: set<string>, creates: nat -> bool)
    ensures var items := Ranking(ModeOf(name), cs, gaps, os).0;
            var ps := Proposed(items, ModeOf(name).maxTasks, existing, |items|);
            ContinuationsServed(ps, CreatedFrom(ps, [], creates, |ps|), creates, cs, existing)
  {
    var mode := ModeOf(name);
    var items := Ranking(mode, cs, gaps, os).0;
    var at := RecoveryStands(gaps);
    PlacedByMode(mode, cs, gaps, os, at);
    PlacedFirst(items, gaps, at, if mode.prioritizeFailures then |at| else 0, cs, mode.boost, os, mode.allowNew);
    PlacedAreServed(items, if mode.prioritizeFailures then |at| else 0, cs, mode.maxTasks, existing, creates);
  }

  /** The candidates stand from position `n` on, and no gap in front of them. */
  ghost predicate CandidatesFirst(items: seq<Item>, n: nat, cs: seq<Candidate>) {
    && n + |cs| <= |items|
    && (forall k :: 0 <= k < |cs| ==>
          var r := items[n + k];
          r.description == cs[k].nextAction && r.workstream == cs[k].workstream && r.source == FromContinuity)
    && forall i :: 0 <= i < n + |cs| ==> items[i].source != FromGap
  }

  lemma PlacedFirst(ranked: seq<Item>, gaps: seq<Gap>, at: seq<nat>, n: nat, cs: seq<Candidate>, boost: real, os: seq<Opportunity>, all: bool)
    requires Placed(ranked, gaps, at, n, cs, boost, os, all)
    ensures CandidatesFirst(ranked, n, cs)
  {
    var a, b := ranked[..n], ranked[n..n + |cs|];
    assert forall k :: 0 <= k < |cs| ==> b[k] == ranked[n + k];
    forall i | 0 <= i < n + |cs| ensures ranked[i].source != FromGap {
      if i < n {
        assert a[i] == ranked[i];
      } else {
        assert b[i - n] == ranked[i];
      }
    }
  }

  lemma PlacedAreServed(items: seq<Item>, n: nat, cs: seq<Candidate>, max: nat, existing: set<string>, creates: nat -> bool)
    requires CandidatesFirst(items, n, cs)
    ensures var ps := Proposed(items, max, existing, |items|);
            ContinuationsServed(ps, CreatedFrom(ps, [], creates, |ps|), creates, cs, existing)
  {
    var ps := Proposed(items, max, existing, |items|);
    var created := CreatedFrom(ps, [], creates, |ps|);
    if p :| p in created && p.change {
      var i := GapIsLate(items, max, existing, ps, creates, p);
      forall k | 0 <= k < |cs| && cs[k].nextAction != "" && cs[k].nextAction !in existing ensures Served(ps, created, creates, cs[k]) {
        var j := EligibleIsServed(items, max, existing, ps, creates, n + k);
        assert Continues(ps, j, cs[k]);
      }
    }
  }

  /** The item of a change that is created: a gap among the first. */
  lemma GapIsLate(items: seq<Item>, max: nat, existing: set<string>, ps: seq<Proposal>, creates: nat -> bool, p: Proposal) returns (i: nat)
    requires ps == Proposed(items, max, existing, |items|) && p in CreatedFrom(ps, [], creates, |ps|) && p.change
    ensures i < |items| && i < max && items[i].source == FromGap
  {
    var inner := ProposedAre(items, max, existing, |items|);
    var outer := CreatedAre(ps, [], creates, |ps|);
    var k :| 0 <= k < |outer| && CreatedFrom(ps, [], creates, |ps|)[k] == p;
    i := inner[outer[k]];
  }

  /** An eligible item among the first is proposed, and created unless its insertion fails. */
  lemma EligibleIsServed(items: seq<Item>, max: nat, existing: set<string>, ps: seq<Proposal>, creates: nat -> bool, i: nat) returns (j: nat)
    requires ps == Proposed(items, max, existing, |items|) && i < |items| && i < max && Eligible(items[i], existing)
    ensures j < |ps| && ps[j].title == items[i].description && ps[j].workstream == items[i].workstream
    ensures ps[j].change == (items[i].source == FromGap) && (creates(j) ==> ps[j] in CreatedFrom(ps, [], creates, |ps|))
  {
    var inner := ProposedAre(items, max, existing, |items|);
    var outer := CreatedAre(ps, [], creates, |ps|);
    j :| 0 <= j < |inner| && inner[j] == i;
    if creates(j) {
      assert IsCreated([], creates, j);
      var k :| 0 <= k < |outer| && outer[k] == j;
      assert CreatedFrom(ps, [], creates, |ps|)[k] == ps[j];
    }
  }

  // ----- the pipeline -----

  /** Which stages a prompt executor answers. */
  datatype Executor = Executor(continuity: bool, gap: bool, prioritization: bool, synthesis: bool, antiDrift: bool)

  /** What the stages before the ranking find in the project. */
  datatype Findings = Findings(candidates: seq<Candidate>, gaps: seq<Gap>, opportunities: seq<Opportunity>, goals: seq<string>)

  const RECENT := 100

  class Planner {
    var mode: string
    var cycleCount: nat
    var lastCycleAt: Option<int>
    /** The titles of the project's tasks, oldest first; titles are stored trimmed. */
    var titles: seq<string>
    const trim: string -> string

    constructor (mode: string, trim: string -> string)
      ensures this.mode == mode && this.trim == trim && cycleCount == 0 && lastCycleAt == None && titles == []
    {
      this.mode, this.trim, cycleCount, lastCycleAt, titles := mode, trim, 0, None, [];
    }

    /** The titles a cycle compares with: those of the newest tasks. */
    function Existing(): set<string>
      reads this
    {
      var first := if |titles| > RECENT then |titles| - RECENT else 0;
      set t | t in titles[first..] && t != ""
    }

    method CreateApproved(proposed: Output<Proposal>, approvals: Output<Approval>, creates: nat -> bool) returns (created: seq<Proposal>)
      modifies `titles
      ensures created == CreatedFrom(Read(proposed), Read(approvals), creates, |Read(proposed)|)
      ensures titles == old(titles) + seq(|created|, i requires 0 <= i < |created| => trim(created[i].title))
    {
      var ps, list := Read(proposed), Read(approvals);
      created := [];
      for i := 0 to |ps|
        invariant created == CreatedFrom(ps, list, creates, i)
        invariant titles == old(titles) + seq(|created|, k requires 0 <= k < |created| => trim(created[k].title))
      {
        if Admitted(list, i) && creates(i) {
          titles := titles + [trim(ps[i].title)];
          created := created + [ps[i]];
        }
      }
    }

    /** One cycle. Whatever the executor answers, no more tasks are created than the mode allows;
        each created task comes from one of the first items of the ranking and, at that time, from
        no recent title; a ranking or a synthesis made by an executor creates nothing; and a
        validation, whoever makes it, rejects nothing, so that every proposal is created whose
        insertion succeeds. */
    method RunCycle(now: int, minInterval: int, found: Findings, executor: Executor, validate: bool,
                    creates: nat -> bool, persisted: bool)
      returns (created: Option<seq<Proposal>>)
      modifies this
      ensures mode == old(mode)
      ensures created.None? <==> old(lastCycleAt).Some? && now - old(lastCycleAt).value < minInterval
      ensures created.None? ==> titles == old(titles) && lastCycleAt == old(lastCycleAt) && cycleCount == old(cycleCount)
      ensures created.Some? ==>
                |created.value| <= if mode == "focused" then 2 else if mode == "recovery" then 5 else if mode == "maintenance" then 1 else 3
      ensures created.Some? ==> lastCycleAt == (if persisted then Some(now) else old(lastCycleAt))
      ensures created.Some? && (executor.prioritization || executor.synthesis) ==> created.value == [] && titles == old(titles)
      ensures created.Some? && !executor.prioritization && !executor.synthesis ==>
                CreatedInOrder(created.value, RankingFor(ModeOf(mode), found, executor), ModeOf(mode).maxTasks, old(Existing()))
      ensures created.Some? && !executor.prioritization && !executor.synthesis ==>
                var items := RankingFor(ModeOf(mode), found, executor);
                var ps := Proposed(items, ModeOf(mode).maxTasks, old(Existing()), |items|);
                && created.value == CreatedFrom(ps, [], creates, |ps|)
                && ContinuationsServed(ps, created.value, creates, if executor.continuity then [] else found.candidates, old(Existing()))
      ensures created.Some? ==>
                cycleCount == old(cycleCount) + 1
                && titles == old(titles) + seq(|created.value|, i requires 0 <= i < |created.value| => trim(created.value[i].title))
    {
      if lastCycleAt.Some? && now - lastCycleAt.value < minInterval {
        return None;
      }
      var proposed, approvals := RunStages(mode, found, executor, validate, Existing());
      CreatedWithin(RankingFor(ModeOf(mode), found, executor), ModeOf(mode).maxTasks, Existing(), Read(proposed), Read(approvals), creates);
      AllAdmitted(Read(proposed), Read(approvals), creates, |Read(proposed)|);
      ContinuationsComeFirst(mode, if executor.continuity then [] else found.candidates, if executor.gap then [] else found.gaps,
                             if executor.gap then [] else found.opportunities, Existing(), creates);
      var cs := CreateApproved(proposed, approvals, creates);
      created := Some(cs);
      cycleCount := cycleCount + 1;
      if persisted {
        lastCycleAt := Some(now);
      }
    }
  }

  /** Ranking, synthesis and validation, each by the heuristic or by the executor. */
  method RunStages(modeName: string, found: Findings, executor: Executor, validate: bool, existing: set<string>)
    returns (proposed: Output<Proposal>, approvals: Output<Approval>)
    ensures var items := RankingFor(ModeOf(modeName), found, executor);
            Read(proposed) == if executor.prioritization || executor.synthesis then []
                              else Proposed(items, ModeOf(modeName).maxTasks, existing, |items|)
    ensures forall i :: 0 <= i < |Read(proposed)| ==> Admitted(Read(approvals), i)
  {
    var ranked := Rank(modeName, found, executor);
    proposed := Decoded;
    if !executor.synthesis {
      var proposals, _ := Synthesize(ranked, ModeOf(modeName).maxTasks, existing);
      proposed := Native(proposals);
    }
    approvals := Validate(found.goals, proposed, validate && !executor.antiDrift);
  }

  method Rank(modeName: string, found: Findings, executor: Executor) returns (ranked: Output<Item>)
    ensures Read(ranked) == if executor.prioritization then [] else RankingFor(ModeOf(modeName), found, executor)
  {
    var candidates := if executor.continuity then Decoded else Native(found.candidates);
    var gaps := if executor.gap then Decoded else Native(found.gaps);
    var opportunities := if executor.gap then Decoded else Native(found.opportunities);
    ranked := Decoded;
    if !executor.prioritization {
      var items, _ := Prioritize(modeName, candidates, gaps, opportunities);
      ranked := Native(items);
    }
  }

  /** Validation by the heuristic, or else by the executor or not at all: nothing is rejected. */
  method Validate(goals: seq<string>, proposed: Output<Proposal>, heuristic: bool) returns (approvals: Output<Approval>)
    ensures forall i :: 0 <= i < |Read(proposed)| ==> Admitted(Read(approvals), i)
  {
    approvals := Decoded;
    if heuristic {
      var list, _ := AntiDrift(goals, proposed);
      approvals := Native(list);
      forall i | 0 <= i < |Read(proposed)| ensures Admitted(list, i) {
        assert list[i] == Approval(i, true);
      }
    }
  }

  /** The ranking a cycle works with when no executor ranks. */
  function RankingFor(mode: Mode, found: Findings, executor: Executor): seq<Item> {
    Ranking(mode, if executor.continuity then [] else found.candidates, if executor.gap then [] else found.gaps,
            if executor.gap then [] else found.opportunities).0
  }

  /** Created tasks are the descriptions of some of the first `max` ranked items, in rank order,
      none of them empty or among the existing titles. */
  ghost predicate CreatedInOrder(created: seq<Proposal>, items: seq<Item>, max: nat, existing: set<string>) {
    exists at: seq<nat> :: MadeFrom(created, items, at, |items|, max, existing)
  }

  lemma CreatedWithin(items: seq<Item>, max: nat, existing: set<string>, ps: seq<Proposal>, approvals: seq<Approval>, creates: nat -> bool)
    requires max > 0 && (ps == Proposed(items, max, existing, |items|) || ps == [])
    ensures var cs := CreatedFrom(ps, approvals, creates, |ps|);
            |cs| <= max && CreatedInOrder(cs, items, max, existing)
  {
    var cs := CreatedFrom(ps, approvals, creates, |ps|);
    var outer := CreatedAre(ps, approvals, creates, |ps|);
    if ps == [] {
      assert MadeFrom(cs, items, [], |items|, max, existing);
    } else {
      var inner := ProposedAre(items, max, existing, |items|);
      var at := seq(|outer|, i requires 0 <= i < |outer| => inner[outer[i]]);
      assert MadeFrom(cs, items, at, |items|, max, existing);
      IncreasingIsShort(outer, |ps|);
    }
  }
}
