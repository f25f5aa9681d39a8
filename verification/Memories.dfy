/** Which project memories go into the context of an assignment: mandatory ones first, then the
    best candidates that fit a count and a byte budget. */
module Memories {
  import opened Options
  import opened Text
  import StableSort

  /** `key` is the lower-cased key; `hash` the content hash, empty if there is none; `size` the
      serialized size, None when the memory cannot be serialized; `confidence` in percent. */
  datatype Memory = Memory(
    id: string, scope: string, key: string, hash: string, size: Option<nat>,
    recent: bool, confidence: Option<int>, hasFiles: bool)

  const MEM_BUDGET := 10
  const BYTE_BUDGET := 32768

  predicate IsMandatory(m: Memory) {
    m.scope == "constraint" || m.scope == "policy"
  }

  function Bytes(ms: seq<Memory>): nat {
    if ms == [] then 0 else Bytes(ms[..|ms| - 1]) + SizeOf(ms[|ms| - 1])
  }

  function SizeOf(m: Memory): nat {
    if m.size.Some? then m.size.value else 0
  }

  /** `keyword` is the word taken from the task title, `prior` whether failures are known. */
  function Score(m: Memory, keyword: string, prior: bool): int {
    (if keyword != "" && Index(m.key, keyword) >= 0 then 3 else 0)
    + (if m.scope == "failure_pattern" && prior then 2 else 0)
    + (if m.recent then 1 else 0)
    + (if m.scope == "convention" then 2 else 0)
    + (if m.scope == "fix_pattern" then 2 else 0)
    + (match m.confidence
       case None => 0
       case Some(c) => if c >= 80 then 3 else if c >= 60 then 2 else if c >= 40 then 1 else 0)
    + (if m.hasFiles then 1 else 0)
  }

  // ----- the stages as functions -----

  /** The first memory with each identifier. */
  function Gathered(ms: seq<Memory>): seq<Memory> {
    if ms == [] then []
    else
      var g := Gathered(ms[..|ms| - 1]);
      if HasId(g, ms[|ms| - 1].id) then g else g + [ms[|ms| - 1]]
  }

  predicate HasId(ms: seq<Memory>, id: string) {
    exists i :: 0 <= i < |ms| && ms[i].id == id
  }

  function Concat(queries: seq<seq<Memory>>): seq<Memory> {
    if queries == [] then [] else Concat(queries[..|queries| - 1]) + queries[|queries| - 1]
  }

  function Only(ms: seq<Memory>, mandatory: bool): seq<Memory> {
    if ms == [] then []
    else Only(ms[..|ms| - 1], mandatory) + if IsMandatory(ms[|ms| - 1]) == mandatory then [ms[|ms| - 1]] else []
  }

  predicate HasHash(ms: seq<Memory>, hash: string) {
    exists i :: 0 <= i < |ms| && ms[i].hash == hash
  }

  /** The first memory with each content hash, and all without one. */
  function DistinctContent(ms: seq<Memory>): seq<Memory> {
    if ms == [] then []
    else
      var d, m := DistinctContent(ms[..|ms| - 1]), ms[|ms| - 1];
      if m.hash != "" && HasHash(d, m.hash) then d else d + [m]
  }

  /** Whether the memory goes in on top of those already taken. */
  predicate Fits(taken: seq<Memory>, m: Memory) {
    |taken| < MEM_BUDGET && (m.size.Some? ==> Bytes(taken) + m.size.value <= BYTE_BUDGET)
  }

  /** What has been taken after the first `n` candidates. */
  function Taken(mandatory: seq<Memory>, candidates: seq<Memory>, n: nat): seq<Memory>
    requires n <= |candidates|
  {
    if n == 0 then mandatory
    else
      var t := Taken(mandatory, candidates, n - 1);
      if Fits(t, candidates[n - 1]) then t + [candidates[n - 1]] else t
  }

  function KnowsFailures(ms: seq<Memory>): bool {
    exists i :: 0 <= i < |ms| && ms[i].scope == "failure_pattern"
  }

  function Ranked(all: seq<Memory>, keyword: string): seq<Memory> {
    StableSort.Sort(DistinctContent(Only(all, false)), (m: Memory) => Score(m, keyword, KnowsFailures(all)))
  }

  function Selected(queries: seq<seq<Memory>>, keyword: string): seq<Memory> {
    var all := Gathered(Concat(queries));
    var ranked := Ranked(all, keyword);
    Taken(Only(all, true), ranked, |ranked|)
  }

  // ----- the program -----

  /** `queries` are the results of the queries that succeeded, in the order they are made. */
  method AssembleFilteredMemories(queries: seq<seq<Memory>>, keyword: string) returns (result: seq<Memory>)
    ensures result == Selected(queries, keyword)
  {
    var all := Gather(queries);
    var prior := KnowsFailures(all);
    var mandatory, candidates := Split(all);
    var distinct := SkipKnownContent(candidates);
    var sorted := StableSort.Sort(distinct, (m: Memory) => Score(m, keyword, prior));
    assert sorted == Ranked(all, keyword);
    result := TakeFitting(mandatory, sorted);
  }

  method Gather(queries: seq<seq<Memory>>) returns (all: seq<Memory>)
    ensures all == Gathered(Concat(queries))
  {
    all := [];
    var seen: set<string> := {};
    var q := 0;
    while q < |queries|
      invariant q <= |queries| && all == Gathered(Concat(queries[..q]))
      invariant forall id :: id in seen <==> HasId(all, id)
    {
      all, seen := AddMemories(Concat(queries[..q]), queries[q], all, seen);
      assert queries[..q + 1][..q] == queries[..q];
      q := q + 1;
    }
    assert queries[..q] == queries;
  }

  method TakeFitting(mandatory: seq<Memory>, sorted: seq<Memory>) returns (result: seq<Memory>)
    ensures result == Taken(mandatory, sorted, |sorted|)
  {
    result := mandatory;
    var totalBytes := Bytes(mandatory);
    var i := 0;
    while i < |sorted|
      invariant i <= |sorted| && result == Taken(mandatory, sorted, i) && totalBytes == Bytes(result)
    {
      if |result| >= MEM_BUDGET {
        FullStays(mandatory, sorted, i, |sorted|);
        return;
      }
      var m := sorted[i];
      i := i + 1;
      if m.size.Some? && totalBytes + m.size.value > BYTE_BUDGET {
        continue;
      }
      BytesSnoc(result, m);
      result := result + [m];
      totalBytes := totalBytes + SizeOf(m);
    }
  }

  method AddMemories(ghost before: seq<Memory>, ms: seq<Memory>, all: seq<Memory>, seen: set<string>)
    returns (all': seq<Memory>, seen': set<string>)
    requires all == Gathered(before) && forall id :: id in seen <==> HasId(all, id)
    ensures all' == Gathered(before + ms) && forall id :: id in seen' <==> HasId(all', id)
  {
    all', seen' := all, seen;
    assert before + ms[..0] == before;
    for k := 0 to |ms|
      invariant all' == Gathered(before + ms[..k]) && forall id :: id in seen' <==> HasId(all', id)
    {
      assert before + ms[..k + 1] == before + ms[..k] + [ms[k]];
      if ms[k].id !in seen' {
        HasIdSnoc(all', ms[k]);
        seen' := seen' + {ms[k].id};
        all' := all' + [ms[k]];
      }
    }
    assert ms[..|ms|] == ms;
  }

  lemma HasIdSnoc(ms: seq<Memory>, m: Memory)
    ensures forall id :: HasId(ms + [m], id) <==> HasId(ms, id) || id == m.id
  {
    forall id ensures HasId(ms + [m], id) <==> HasId(ms, id) || id == m.id {
      if HasId(ms, id) {
        var i :| 0 <= i < |ms| && ms[i].id == id;
        assert (ms + [m])[i].id == id;
      }
      assert (ms + [m])[|ms|] == m;
    }
  }

  method Split(all: seq<Memory>) returns (mandatory: seq<Memory>, candidates: seq<Memory>)
    ensures mandatory == Only(all, true) && candidates == Only(all, false)
  {
    mandatory, candidates := [], [];
    for k := 0 to |all|
      invariant mandatory == Only(all[..k], true) && candidates == Only(all[..k], false)
    {
      assert all[..k + 1][..k] == all[..k];
      if IsMandatory(all[k]) {
        mandatory := mandatory + [all[k]];
      } else {
        candidates := candidates + [all[k]];
      }
    }
    assert all[..|all|] == all;
  }

  method SkipKnownContent(candidates: seq<Memory>) returns (distinct: seq<Memory>)
    ensures distinct == DistinctContent(candidates)
  {
    distinct := [];
    var seenHashes: set<string> := {};
    for k := 0 to |candidates|
      invariant distinct == DistinctContent(candidates[..k])
      invariant forall h :: h in seenHashes <==> h != "" && HasHash(distinct, h)
    {
      assert candidates[..k + 1][..k] == candidates[..k];
      var m := candidates[k];
      HasHashSnoc(distinct, m);
      if m.hash != "" {
        if m.hash in seenHashes {
          continue;
        }
        seenHashes := seenHashes + {m.hash};
      }
      distinct := distinct + [m];
    }
    assert candidates[..|candidates|] == candidates;
  }

  lemma HasHashSnoc(ms: seq<Memory>, m: Memory)
    ensures forall h :: HasHash(ms + [m], h) <==> HasHash(ms, h) || h == m.hash
  {
    forall h ensures HasHash(ms + [m], h) <==> HasHash(ms, h) || h == m.hash {
      if HasHash(ms, h) {
        var i :| 0 <= i < |ms| && ms[i].hash == h;
        assert (ms + [m])[i].hash == h;
      }
      assert (ms + [m])[|ms|] == m;
    }
  }

  lemma BytesSnoc(ms: seq<Memory>, m: Memory)
    ensures Bytes(ms + [m]) == Bytes(ms) + SizeOf(m)
  {
    assert (ms + [m])[..|ms|] == ms;
  }

  /** Once the count is reached nothing more goes in, so the loop may stop. */
  lemma {:induction false} FullStays(mandatory: seq<Memory>, cs: seq<Memory>, i: nat, j: nat)
    requires i <= j <= |cs| && |Taken(mandatory, cs, i)| >= MEM_BUDGET
    ensures Taken(mandatory, cs, j) == Taken(mandatory, cs, i)
    decreases j
  {
    if i < j {
      FullStays(mandatory, cs, i, j - 1);
    }
  }

  // ----- what is selected -----

  ghost predicate DistinctIds(ms: seq<Memory>) {
    forall i, j :: 0 <= i < j < |ms| ==> ms[i].id != ms[j].id
  }

  ghost predicate DistinctHashes(ms: seq<Memory>) {
    forall i, j :: 0 <= i < j < |ms| && ms[i].hash == ms[j].hash ==> ms[i].hash == ""
  }

  /** Gathering keeps one memory of each identifier and loses none. */
  lemma {:induction false} GatheredIsDistinct(ms: seq<Memory>, id: string)
    ensures DistinctIds(Gathered(ms)) && (HasId(Gathered(ms), id) <==> HasId(ms, id))
    decreases |ms|
  {
    if ms != [] {
      var prefix, m := ms[..|ms| - 1], ms[|ms| - 1];
      GatheredIsDistinct(prefix, id);
      GatheredIsDistinct(prefix, m.id);
      HasIdSnoc(prefix, m);
      HasIdSnoc(Gathered(prefix), m);
      assert ms == prefix + [m];
      if !HasId(Gathered(prefix), m.id) {
        forall i | 0 <= i < |Gathered(prefix)| ensures Gathered(prefix)[i].id != m.id {
          assert HasId(Gathered(prefix), Gathered(prefix)[i].id);
        }
      }
    }
  }

  /** A choice of positions, in increasing order. */
  ghost predicate Positions(at: seq<nat>, n: nat) {
    (forall i :: 0 <= i < |at| ==> at[i] < n) && (forall i, j :: 0 <= i < j < |at| ==> at[i] < at[j])
  }

  ghost predicate Picks(r: seq<Memory>, s: seq<Memory>, at: seq<nat>) {
    |r| == |at| && Positions(at, |s|) && forall i :: 0 <= i < |at| ==> r[i] == s[at[i]]
  }

  lemma PicksSnoc(r: seq<Memory>, s: seq<Memory>, at: seq<nat>, n: nat)
    requires Picks(r, s, at) && Positions(at, n) && n < |s|
    ensures Picks(r + [s[n]], s, at + [n]) && Positions(at + [n], n + 1)
  {
  }

  /** No earlier memory has the content of this one. */
  ghost predicate IsFirst(ms: seq<Memory>, k: nat)
    requires k < |ms|
  {
    ms[k].hash == "" || forall j :: 0 <= j < k ==> ms[j].hash != ms[k].hash
  }

  ghost predicate PicksFirst(ms: seq<Memory>, at: seq<nat>) {
    forall k {:trigger IsFirst(ms, k)} :: 0 <= k < |ms| ==> (k in at <==> IsFirst(ms, k))
  }

  /** The candidates kept are, in order, exactly those without a hash and the first of each content
      hash; so one of each hash is kept. */
  lemma {:induction false} ContentIsDistinct(ms: seq<Memory>) returns (at: seq<nat>)
    ensures Picks(DistinctContent(ms), ms, at) && PicksFirst(ms, at)
    ensures DistinctHashes(DistinctContent(ms))
    ensures forall h :: HasHash(DistinctContent(ms), h) <==> HasHash(ms, h)
    ensures forall m :: m in ms && m.hash == "" ==> m in DistinctContent(ms)
    decreases |ms|
  {
    if ms == [] {
      at := [];
    } else {
      var n := |ms| - 1;
      var prefix, m := ms[..n], ms[n];
      var d := DistinctContent(prefix);
      at := ContentIsDistinct(prefix);
      HasHashSnoc(prefix, m);
      HasHashSnoc(d, m);
      assert ms == prefix + [m];
      FirstSnoc(ms, n, at);
      if m.hash == "" || !HasHash(d, m.hash) {
        HashesSnoc(d, m);
        PicksLonger(d, ms, at, n);
        PicksSnoc(d, ms, at, n);
        at := at + [n];
      } else {
        PicksLonger(d, ms, at, n);
      }
    }
  }

  lemma FirstSnoc(ms: seq<Memory>, n: nat, at: seq<nat>)
    requires n + 1 == |ms| && PicksFirst(ms[..n], at) && Positions(at, n)
    ensures IsFirst(ms, n) <==> ms[n].hash == "" || !HasHash(ms[..n], ms[n].hash)
    ensures PicksFirst(ms, if IsFirst(ms, n) then at + [n] else at)
  {
    var prefix := ms[..n];
    assert HasHash(prefix, ms[n].hash) <==> exists j :: 0 <= j < n && ms[j].hash == ms[n].hash by {
      forall j | 0 <= j < n ensures prefix[j] == ms[j] {
      }
    }
    forall k | 0 <= k < n ensures IsFirst(ms, k) == IsFirst(prefix, k) {
      assert forall j :: 0 <= j <= k ==> prefix[j] == ms[j];
    }
  }

  lemma HashesSnoc(d: seq<Memory>, m: Memory)
    requires DistinctHashes(d) && (m.hash == "" || !HasHash(d, m.hash))
    ensures DistinctHashes(d + [m])
  {
    forall i | 0 <= i < |d| ensures m.hash == "" || d[i].hash != m.hash {
      assert HasHash(d, d[i].hash);
    }
  }

  lemma PicksLonger(d: seq<Memory>, ms: seq<Memory>, at: seq<nat>, n: nat)
    requires n <= |ms| && Picks(d, ms[..n], at)
    ensures Picks(d, ms, at) && Positions(at, n)
  {
  }

  /** The candidate fits at its turn. */
  ghost predicate FitsAt(mandatory: seq<Memory>, cs: seq<Memory>, i: nat)
    requires i < |cs|
  {
    Fits(Taken(mandatory, cs, i), cs[i])
  }

  ghost predicate PicksFitting(mandatory: seq<Memory>, cs: seq<Memory>, at: seq<nat>, n: nat)
    requires n <= |cs|
  {
    forall i {:trigger FitsAt(mandatory, cs, i)} :: 0 <= i < n ==> (i in at <==> FitsAt(mandatory, cs, i))
  }

  /** What is taken starts with the mandatory memories and goes on with a subsequence of the
      ranked candidates: exactly those that fit at their turn. */
  lemma {:induction false} TakenPicks(mandatory: seq<Memory>, cs: seq<Memory>, n: nat)
    returns (chosen: seq<Memory>, at: seq<nat>)
    requires n <= |cs|
    ensures Taken(mandatory, cs, n) == mandatory + chosen && Picks(chosen, cs, at) && Positions(at, n)
    ensures PicksFitting(mandatory, cs, at, n)
    decreases n
  {
    if n == 0 {
      chosen, at := [], [];
    } else {
      var before, places := TakenPicks(mandatory, cs, n - 1);
      chosen, at := TakenStep(mandatory, cs, n - 1, n, before, places);
    }
  }

  lemma TakenStep(mandatory: seq<Memory>, cs: seq<Memory>, n: nat, next: nat, chosen: seq<Memory>, at: seq<nat>)
    returns (chosen': seq<Memory>, at': seq<nat>)
    requires n < |cs| && next == n + 1 && Taken(mandatory, cs, n) == mandatory + chosen
    requires Picks(chosen, cs, at) && Positions(at, n) && PicksFitting(mandatory, cs, at, n)
    ensures Taken(mandatory, cs, next) == mandatory + chosen' && Picks(chosen', cs, at') && Positions(at', next)
    ensures PicksFitting(mandatory, cs, at', next)
  {
    chosen', at' := chosen, at;
    assert PicksFitting(mandatory, cs, if FitsAt(mandatory, cs, n) then at + [n] else at, n + 1) by {
      FittingSnoc(mandatory, cs, at, n);
    }
    if FitsAt(mandatory, cs, n) {
      chosen', at' := chosen + [cs[n]], at + [n];
      assert Picks(chosen', cs, at') && Positions(at', n + 1) by { PicksSnoc(chosen, cs, at, n); }
      Associate(mandatory, chosen, cs[n]);
    }
  }

  lemma FittingSnoc(mandatory: seq<Memory>, cs: seq<Memory>, at: seq<nat>, n: nat)
    requires n < |cs| && PicksFitting(mandatory, cs, at, n) && Positions(at, n)
    ensures PicksFitting(mandatory, cs, if FitsAt(mandatory, cs, n) then at + [n] else at, n + 1)
  {
    var longer := at + [n];
    forall i | 0 <= i <= n ensures i in longer <==> i in at || i == n {
      assert longer[|at|] == n;
    }
  }

  lemma Associate(x: seq<Memory>, y: seq<Memory>, m: Memory)
    ensures x + y + [m] == x + (y + [m])
  {
  }

  /** Both budgets hold, unless the mandatory memories alone exceed them. */
  lemma {:induction false} TakenIsBounded(mandatory: seq<Memory>, cs: seq<Memory>, n: nat)
    requires n <= |cs|
    ensures |Taken(mandatory, cs, n)| <= Max(|mandatory|, MEM_BUDGET)
    ensures Bytes(Taken(mandatory, cs, n)) <= Max(Bytes(mandatory), BYTE_BUDGET)
    decreases n
  {
    if n > 0 {
      TakenIsBounded(mandatory, cs, n - 1);
      BytesSnoc(Taken(mandatory, cs, n - 1), cs[n - 1]);
    }
  }

  function Max(a: nat, b: nat): nat {
    if a < b then b else a
  }

  lemma {:induction false} BytesGrow(mandatory: seq<Memory>, cs: seq<Memory>, i: nat, j: nat)
    requires i <= j <= |cs|
    ensures Bytes(Taken(mandatory, cs, i)) <= Bytes(Taken(mandatory, cs, j))
    ensures |Taken(mandatory, cs, i)| <= |Taken(mandatory, cs, j)|
    decreases j
  {
    if i < j {
      BytesGrow(mandatory, cs, i, j - 1);
      BytesSnoc(Taken(mandatory, cs, j - 1), cs[j - 1]);
    }
  }

  /** A candidate that was passed over, although the selection was not full, loses only to better
      ranked candidates and to strictly smaller ones. */
  lemma PassedOverIsLarger(mandatory: seq<Memory>, cs: seq<Memory>, i: nat, j: nat)
    requires i < j < |cs| && cs[j].size.Some?
    requires !Fits(Taken(mandatory, cs, i), cs[i]) && |Taken(mandatory, cs, i)| < MEM_BUDGET
    requires Fits(Taken(mandatory, cs, j), cs[j])
    ensures cs[i].size.Some? && cs[j].size.value < cs[i].size.value
  {
    BytesGrow(mandatory, cs, i, j);
  }

  /** Only what is gathered is selected, in ranking order; the ranking is the stable sort of the
      candidates with distinct content. */
  lemma RankedIsSorted(all: seq<Memory>, keyword: string)
    ensures var key := (m: Memory) => Score(m, keyword, KnowsFailures(all));
            && StableSort.StablySorted(DistinctContent(Only(all, false)), Ranked(all, keyword), key)
            && multiset(Ranked(all, keyword)) == multiset(DistinctContent(Only(all, false)))
  {
    StableSort.SortIsStable(DistinctContent(Only(all, false)), (m: Memory) => Score(m, keyword, KnowsFailures(all)));
  }

  // ----- distinctness -----

  lemma TwoPlaces<T>(s: seq<T>, x: T) returns (i: nat, j: nat)
    requires multiset(s)[x] >= 2
    ensures i < j < |s| && s[i] == s[j] == x
  {
    i :| i < |s| && s[i] == x;
    var rest := s[..i] + s[i + 1..];
    assert s == s[..i] + [x] + s[i + 1..];
    assert multiset(rest)[x] >= 1;
    var k :| 0 <= k < |rest| && rest[k] == x;
    j := if k < i then k else k + 1;
    if j < i {
      i, j := j, i;
    }
  }

  lemma Twice<T>(s: seq<T>, i: nat, j: nat)
    requires i < j < |s| && s[i] == s[j]
    ensures multiset(s)[s[i]] >= 2
  {
    assert s == s[..j] + [s[j]] + s[j + 1..];
    assert s[..j][i] == s[i];
  }

  ghost predicate Apart(s: seq<Memory>, clash: (Memory, Memory) -> bool) {
    forall i, j :: 0 <= i < j < |s| ==> !clash(s[i], s[j])
  }

  /** Reordering does not bring clashing elements about. */
  lemma PermutationKeepsApart(s: seq<Memory>, r: seq<Memory>, clash: (Memory, Memory) -> bool)
    requires multiset(s) == multiset(r) && Apart(s, clash) && forall a, b :: clash(a, b) == clash(b, a)
    ensures Apart(r, clash)
  {
    forall i, j | 0 <= i < j < |r| ensures !clash(r[i], r[j]) {
      if r[i] == r[j] {
        Twice(r, i, j);
        var p, q := TwoPlaces(s, r[i]);
      } else {
        assert r[i] in multiset(s) && r[j] in multiset(s);
        var p :| 0 <= p < |s| && s[p] == r[i];
        var q :| 0 <= q < |s| && s[q] == r[j];
      }
    }
  }

  lemma LastIsNew(ms: seq<Memory>, some: seq<Memory>)
    requires ms != [] && DistinctIds(ms) && DistinctIds(some) && forall x :: x in some ==> x in ms[..|ms| - 1]
    ensures DistinctIds(some + [ms[|ms| - 1]])
  {
    forall i | 0 <= i < |some| ensures some[i].id != ms[|ms| - 1].id {
      var prefix := ms[..|ms| - 1];
      assert some[i] in some;
      var j :| 0 <= j < |prefix| && prefix[j] == some[i];
      assert ms[j] == some[i];
    }
  }

  lemma {:induction false} OnlyKeepsDistinct(all: seq<Memory>, b: bool)
    requires DistinctIds(all)
    ensures DistinctIds(Only(all, b)) && forall x :: x in Only(all, b) ==> x in all && IsMandatory(x) == b
    decreases |all|
  {
    if all != [] {
      var prefix := all[..|all| - 1];
      OnlyKeepsDistinct(prefix, b);
      LastIsNew(all, Only(prefix, b));
    }
  }

  lemma {:induction false} ContentKeepsDistinct(ms: seq<Memory>)
    requires DistinctIds(ms)
    ensures DistinctIds(DistinctContent(ms)) && forall x :: x in DistinctContent(ms) ==> x in ms
    decreases |ms|
  {
    if ms != [] {
      var prefix := ms[..|ms| - 1];
      ContentKeepsDistinct(prefix);
      LastIsNew(ms, DistinctContent(prefix));
    }
  }

  /** Ranked candidates: gathered, not mandatory, distinct in identifier and in content. */
  lemma RankedIsDistinct(all: seq<Memory>, keyword: string)
    requires DistinctIds(all)
    ensures DistinctIds(Ranked(all, keyword)) && DistinctHashes(Ranked(all, keyword))
    ensures forall x :: x in Ranked(all, keyword) ==> x in all && !IsMandatory(x)
  {
    var cs, r := DistinctContent(Only(all, false)), Ranked(all, keyword);
    RankedIsSorted(all, keyword);
    OnlyKeepsDistinct(all, false);
    ContentKeepsDistinct(Only(all, false));
    assert DistinctIds(r) by {
      var sameId := (a: Memory, b: Memory) => a.id == b.id;
      assert Apart(cs, sameId);
      PermutationKeepsApart(cs, r, sameId);
      assert forall i, j :: 0 <= i < j < |r| ==> !sameId(r[i], r[j]);
    }
    assert DistinctHashes(r) by {
      var sameHash := (a: Memory, b: Memory) => a.hash == b.hash && a.hash != "";
      var at := ContentIsDistinct(Only(all, false));
      assert Apart(cs, sameHash);
      PermutationKeepsApart(cs, r, sameHash);
      assert forall i, j :: 0 <= i < j < |r| ==> !sameHash(r[i], r[j]);
    }
    forall x | x in r ensures x in all && !IsMandatory(x) {
      assert x in multiset(r);
      assert x in cs;
    }
  }

  // ----- what a candidate scores -----

  /** The keyword of the title occurs in the key. */
  ghost predicate Mentions(m: Memory, keyword: string) {
    keyword != "" && exists k :: OccursAt(m.key, keyword, k)
  }

  /** 3 for at least 80 percent, 2 for 60, 1 for 40. */
  ghost function Certainty(m: Memory): int {
    if m.confidence == None || m.confidence.value < 40 then 0
    else if m.confidence.value < 60 then 1
    else if m.confidence.value < 80 then 2
    else 3
  }

  predicate Scoped(m: Memory) {
    m.scope == "convention" || m.scope == "fix_pattern" || m.scope == "failure_pattern"
  }

  /** 3 for the keyword, 2 for being a convention, a fix or a failure pattern, 1 each for being recent
      and for naming files, and the certainty. */
  ghost function Points(m: Memory, keyword: string): int {
    (if Mentions(m, keyword) then 3 else 0) + (if Scoped(m) then 2 else 0)
    + (if m.recent then 1 else 0) + (if m.hasFiles then 1 else 0) + Certainty(m)
  }

  /** A gathered memory scores its points. That failures are known need not be asked of a failure
      pattern: it is one. */
  lemma ScoreIs(all: seq<Memory>, m: Memory, keyword: string)
    requires m in all
    ensures Score(m, keyword, KnowsFailures(all)) == Points(m, keyword)
  {
    IndexIsFirst(m.key, keyword);
    if m.scope == "failure_pattern" {
      var i :| 0 <= i < |all| && all[i] == m;
      assert KnowsFailures(all);
    }
  }

  /** The two candidates differ at most in one attribute, which `x` has and `y` has not. */
  ghost predicate HasMore(x: Memory, y: Memory, keyword: string) {
    && (Mentions(y, keyword) ==> Mentions(x, keyword)) && (Scoped(y) ==> Scoped(x))
    && (y.recent ==> x.recent) && (y.hasFiles ==> x.hasFiles) && Certainty(y) <= Certainty(x)
    && (Mentions(x, keyword) != Mentions(y, keyword) || Scoped(x) != Scoped(y) || x.recent != y.recent
        || x.hasFiles != y.hasFiles || Certainty(y) < Certainty(x))
  }

  /** Only `x` mentions the keyword; at equal certainty, they differ in the scope alone, or not in it. */
  ghost predicate OnlyMentions(x: Memory, y: Memory, keyword: string) {
    && Mentions(x, keyword) && !Mentions(y, keyword) && Certainty(x) == Certainty(y)
    && (x.scope == y.scope || (x.recent == y.recent && x.hasFiles == y.hasFiles))
  }

  /** Of two ranked candidates the one that has more stands first; and at equal certainty the keyword
      outweighs the scope, and recency and files together. */
  lemma RankedByAttributes(all: seq<Memory>, keyword: string, i: nat, j: nat)
    requires DistinctIds(all) && i < |Ranked(all, keyword)| && j < |Ranked(all, keyword)|
    ensures var x, y := Ranked(all, keyword)[i], Ranked(all, keyword)[j];
            && (HasMore(x, y, keyword) ==> i < j)
            && (OnlyMentions(x, y, keyword) ==> i < j)
  {
    MorePointsFirst(all, keyword, i, j);
    MoreOutscores(Ranked(all, keyword)[i], Ranked(all, keyword)[j], keyword);
  }

  lemma MorePointsFirst(all: seq<Memory>, keyword: string, i: nat, j: nat)
    requires DistinctIds(all) && i < |Ranked(all, keyword)| && j < |Ranked(all, keyword)|
    ensures Points(Ranked(all, keyword)[i], keyword) > Points(Ranked(all, keyword)[j], keyword) ==> i < j
  {
    var r := Ranked(all, keyword);
    assert r[i] in r && r[j] in r;
    RankedIsDistinct(all, keyword);
    ScoreIs(all, r[i], keyword);
    ScoreIs(all, r[j], keyword);
    RankedDescends(all, keyword, j, i);
  }

  lemma RankedDescends(all: seq<Memory>, keyword: string, i: nat, j: nat)
    requires i < |Ranked(all, keyword)| && j < |Ranked(all, keyword)|
    ensures var r, f := Ranked(all, keyword), KnowsFailures(all);
            i <= j ==> Score(r[i], keyword, f) >= Score(r[j], keyword, f)
  {
    RankedIsSorted(all, keyword);
  }

  lemma MoreOutscores(x: Memory, y: Memory, keyword: string)
    ensures HasMore(x, y, keyword) ==> Points(x, keyword) > Points(y, keyword)
    ensures OnlyMentions(x, y, keyword) ==> Points(x, keyword) > Points(y, keyword)
  {
  }

  // ----- the selection as a whole -----

  lemma {:induction false} OnlyLosesNone(all: seq<Memory>, b: bool, x: Memory)
    requires x in all && IsMandatory(x) == b
    ensures x in Only(all, b)
    decreases |all|
  {
    var prefix := all[..|all| - 1];
    if x in prefix {
      OnlyLosesNone(prefix, b, x);
    }
  }

  /** A kept candidate has the same content. */
  ghost predicate IsRepeat(kept: seq<Memory>, x: Memory) {
    x !in kept && x.hash != "" && HasHash(kept, x.hash)
  }

  /** At its turn the candidate did not fit: the result was full, or its size too large. */
  ghost predicate PassedOver(mandatory: seq<Memory>, ranked: seq<Memory>, x: Memory) {
    exists i :: 0 <= i < |ranked| && ranked[i] == x && !FitsAt(mandatory, ranked, i)
  }

  lemma HasHashPermutes(s: seq<Memory>, r: seq<Memory>, h: string)
    requires multiset(s) == multiset(r)
    ensures HasHash(s, h) ==> HasHash(r, h)
  {
    if HasHash(s, h) {
      var i :| 0 <= i < |s| && s[i].hash == h;
      assert s[i] in multiset(r);
      var j :| 0 <= j < |r| && r[j] == s[i];
    }
  }

  /** A candidate is ranked unless its content is known. */
  lemma RankedOrRepeat(all: seq<Memory>, keyword: string, x: Memory)
    requires x in all && !IsMandatory(x)
    ensures x in Ranked(all, keyword) || IsRepeat(Ranked(all, keyword), x)
  {
    var cs, r := Only(all, false), Ranked(all, keyword);
    OnlyLosesNone(all, false, x);
    var at := ContentIsDistinct(cs);
    RankedIsSorted(all, keyword);
    if x.hash == "" {
      assert x in multiset(r);
    } else {
      var k :| 0 <= k < |cs| && cs[k] == x;
      assert HasHash(cs, x.hash);
      HasHashPermutes(DistinctContent(cs), r, x.hash);
    }
  }

  /** Of the ranked candidates exactly those are selected that fit at their turn. */
  lemma RankedIsTaken(mandatory: seq<Memory>, ranked: seq<Memory>, chosen: seq<Memory>, at: seq<nat>, x: Memory)
    requires DistinctIds(ranked) && x in ranked
    requires Picks(chosen, ranked, at) && PicksFitting(mandatory, ranked, at, |ranked|)
    ensures x in chosen <==> !PassedOver(mandatory, ranked, x)
  {
    var i :| 0 <= i < |ranked| && ranked[i] == x;
    assert forall j :: 0 <= j < |ranked| && ranked[j] == x ==> j == i;
    if x in chosen {
      var k :| 0 <= k < |chosen| && chosen[k] == x;
      assert ranked[at[k]] == x;
      assert i in at;
    }
    if i in at {
      var k :| 0 <= k < |at| && at[k] == i;
      assert chosen[k] == x;
    }
  }

  /** Why a candidate is in the result or not. */
  lemma TakenIff(all: seq<Memory>, keyword: string, chosen: seq<Memory>, at: seq<nat>, x: Memory)
    requires DistinctIds(all) && x in all && !IsMandatory(x)
    requires Picks(chosen, Ranked(all, keyword), at)
    requires PicksFitting(Only(all, true), Ranked(all, keyword), at, |Ranked(all, keyword)|)
    ensures x in Only(all, true) + chosen
            <==> !IsRepeat(Ranked(all, keyword), x) && !PassedOver(Only(all, true), Ranked(all, keyword), x)
  {
    var mandatory, ranked := Only(all, true), Ranked(all, keyword);
    assert x !in mandatory by { OnlyKeepsDistinct(all, true); }
    assert x in chosen ==> x in ranked;
    RankedOrRepeat(all, keyword, x);
    if x in ranked {
      RankedIsDistinct(all, keyword);
      RankedIsTaken(mandatory, ranked, chosen, at, x);
    }
  }

  /** The selection as a whole: all gathered mandatory memories first, in the order found, then
      the ranked candidates that fit at their turn. A candidate is missing if and only if another
      one with its content is ranked or it did not fit. Identifiers are distinct, and so is the
      content of what was chosen. */
  lemma SelectionIsSound(queries: seq<seq<Memory>>, keyword: string) returns (at: seq<nat>)
    ensures var all := Gathered(Concat(queries));
            var n, t := |Only(all, true)|, Selected(queries, keyword);
            && n <= |t| <= Max(n, MEM_BUDGET) && t[..n] == Only(all, true)
            && Picks(t[n..], Ranked(all, keyword), at)
            && DistinctIds(t) && DistinctHashes(t[n..])
            && Bytes(t) <= Max(Bytes(t[..n]), BYTE_BUDGET)
    ensures var all := Gathered(Concat(queries));
            var mandatory, ranked := Only(all, true), Ranked(all, keyword);
            && PicksFitting(mandatory, ranked, at, |ranked|)
            && forall x :: x in all && !IsMandatory(x) ==>
                 (x in Selected(queries, keyword) <==> !IsRepeat(ranked, x) && !PassedOver(mandatory, ranked, x))
  {
    var all := Gathered(Concat(queries));
    var mandatory, ranked := Only(all, true), Ranked(all, keyword);
    var chosen;
    chosen, at := TakenPicks(mandatory, ranked, |ranked|);
    assert (mandatory + chosen)[..|mandatory|] == mandatory && (mandatory + chosen)[|mandatory|..] == chosen;
    TakenIsBounded(mandatory, ranked, |ranked|);
    GatheredIsDistinct(Concat(queries), "");
    RankedIsDistinct(all, keyword);
    OnlyKeepsDistinct(all, true);
    PicksDistinct(all, mandatory, ranked, Selected(queries, keyword), at);
    forall x | x in all && !IsMandatory(x)
      ensures x in Selected(queries, keyword) <==> !IsRepeat(ranked, x) && !PassedOver(mandatory, ranked, x)
    {
      TakenIff(all, keyword, chosen, at, x);
    }
  }

  lemma PicksDistinct(all: seq<Memory>, mandatory: seq<Memory>, ranked: seq<Memory>, t: seq<Memory>, at: seq<nat>)
    requires DistinctIds(all) && DistinctIds(mandatory) && DistinctIds(ranked) && DistinctHashes(ranked)
    requires forall x :: x in mandatory ==> x in all && IsMandatory(x)
    requires forall x :: x in ranked ==> x in all && !IsMandatory(x)
    requires |mandatory| <= |t| && t[..|mandatory|] == mandatory && Picks(t[|mandatory|..], ranked, at)
    ensures DistinctIds(t) && DistinctHashes(t[|mandatory|..])
  {
    var n := |mandatory|;
    forall i | n <= i < |t| ensures t[i] == ranked[at[i - n]] && t[i] in ranked {
      assert t[n..][i - n] == t[i];
    }
    forall i | 0 <= i < n ensures t[i] == mandatory[i] && t[i] in mandatory {
      assert t[..n][i] == t[i];
    }
    forall i, j | 0 <= i < j < |t| ensures t[i].id != t[j].id {
      if n <= i {
        assert at[i - n] < at[j - n];
      } else if n <= j {
        CrossDistinct(all, t[i], t[j]);
      }
    }
    forall i, j | 0 <= i < j < |t[n..]| && t[n..][i].hash == t[n..][j].hash ensures t[n..][i].hash == "" {
      assert at[i] < at[j];
    }
  }

  lemma CrossDistinct(all: seq<Memory>, x: Memory, y: Memory)
    requires DistinctIds(all) && x in all && y in all && x != y
    ensures x.id != y.id
  {
    var i :| 0 <= i < |all| && all[i] == x;
    var j :| 0 <= j < |all| && all[j] == y;
  }

  // ----- truncation -----

  /** The assembled context keeps the first ten memories: all mandatory ones survive if and only
      if there are at most ten. */
  lemma TruncationExactly(queries: seq<seq<Memory>>, keyword: string)
    ensures var mandatory, t := Only(Gathered(Concat(queries)), true), Selected(queries, keyword);
            var kept := if |t| > MEM_BUDGET then t[..MEM_BUDGET] else t;
            (forall m :: m in mandatory ==> m in kept) <==> |mandatory| <= MEM_BUDGET
  {
    var at := SelectionIsSound(queries, keyword);
    FirstTen(Only(Gathered(Concat(queries)), true), Selected(queries, keyword));
  }

  lemma FirstTen(first: seq<Memory>, t: seq<Memory>)
    requires |first| <= |t| && t[..|first|] == first && DistinctIds(t)
    ensures var kept := if |t| > MEM_BUDGET then t[..MEM_BUDGET] else t;
            |t| <= Max(|first|, MEM_BUDGET) ==> ((forall m :: m in first ==> m in kept) <==> |first| <= MEM_BUDGET)
  {
    var kept := if |t| > MEM_BUDGET then t[..MEM_BUDGET] else t;
    if |first| > MEM_BUDGET {
      var m := first[MEM_BUDGET];
      assert m == t[MEM_BUDGET] && m in first;
      forall i | 0 <= i < |kept| ensures kept[i] != m {
        assert kept[i] == t[i] && t[i].id != t[MEM_BUDGET].id;
      }
    } else {
      forall m | m in first ensures |t| <= MEM_BUDGET ==> m in kept {
        var i :| 0 <= i < |first| && first[i] == m;
        assert t[i] == m;
      }
    }
  }
}
