/** Trimming an assembled context to its size budget: halve the cheapest category that is left,
    in a fixed order of sacrifice, until the context fits. */
module ContextBudget {
  import opened Options

  /** The four categories that can be trimmed; items are named by strings. */
  datatype Context = Context(files: seq<string>, artifacts: seq<string>, runs: seq<string>, memories: seq<string>)

  /** The serialized size of a context, None when it cannot be serialized. Nothing is known about
      it, not even that less content takes fewer bytes. */
  type Size = Context -> Option<nat>

  predicate Fits(c: Context, size: Size, maxBytes: int) {
    size(c).None? || size(c).value <= maxBytes
  }

  predicate CanTrim(c: Context) {
    c.files != [] || c.artifacts != [] || c.runs != [] || |c.memories| > 2
  }

  function Half(s: seq<string>): seq<string> {
    s[..|s| / 2]
  }

  function Trim(c: Context): Context {
    if c.files != [] then c.(files := Half(c.files))
    else if c.artifacts != [] then c.(artifacts := Half(c.artifacts))
    else if c.runs != [] then c.(runs := Half(c.runs))
    else if |c.memories| > 2 then c.(memories := Half(c.memories))
    else c
  }

  function TrimN(c: Context, k: nat): Context {
    if k == 0 then c else Trim(TrimN(c, k - 1))
  }

  predicate Done(c: Context, size: Size, maxBytes: int) {
    Fits(c, size, maxBytes) || !CanTrim(c)
  }

  /** The trimming stops at the first context of the sequence that fits or has nothing left. */
  ghost predicate IsResult(c: Context, size: Size, maxBytes: int, trims: nat) {
    Done(TrimN(c, trims), size, maxBytes) && forall k :: 0 <= k < trims ==> !Done(TrimN(c, k), size, maxBytes)
  }

  // ----- how often a category can be halved -----

  /** Down to nothing. */
  function Halvings(n: nat): nat {
    if n == 0 then 0 else 1 + Halvings(n / 2)
  }

  /** Down to two or fewer. */
  function MemoryHalvings(n: nat): nat {
    if n <= 2 then 0 else 1 + MemoryHalvings(n / 2)
  }

  function MaxTrims(c: Context): nat {
    Halvings(|c.files|) + Halvings(|c.artifacts|) + Halvings(|c.runs|) + MemoryHalvings(|c.memories|)
  }

  function Pow2(k: nat): nat {
    if k == 0 then 1 else 2 * Pow2(k - 1)
  }

  /** The number of halvings is the binary logarithm, rounded down, plus one. */
  lemma {:induction false} HalvingsIsLog(n: nat)
    requires n > 0
    ensures Halvings(n) > 0 && Pow2(Halvings(n) - 1) <= n < Pow2(Halvings(n))
    decreases n
  {
    if n > 1 {
      HalvingsIsLog(n / 2);
    }
  }

  // ----- the program -----

  class TaskContext {
    var repoFiles: seq<string>
    var artifactSummaries: seq<string>
    var recentRunSummaries: seq<string>
    var memories: seq<string>

    constructor (c: Context)
      ensures Value() == c
    {
      repoFiles, artifactSummaries, recentRunSummaries, memories := c.files, c.artifacts, c.runs, c.memories;
    }

    function Value(): Context
      reads this
    {
      Context(repoFiles, artifactSummaries, recentRunSummaries, memories)
    }

    method EnforceBudget(size: Size, maxBytes: int) returns (trims: nat)
      modifies this
      ensures Value() == TrimN(old(Value()), trims) && IsResult(old(Value()), size, maxBytes, trims)
      ensures trims <= MaxTrims(old(Value()))
    {
      trims := 0;
      while true
        invariant Value() == TrimN(old(Value()), trims) && trims + MaxTrims(Value()) == MaxTrims(old(Value()))
        invariant forall k :: 0 <= k < trims ==> !Done(TrimN(old(Value()), k), size, maxBytes)
        decreases MaxTrims(Value())
      {
        if Fits(Value(), size, maxBytes) {
          return;
        }
        if |repoFiles| > 1 {
          repoFiles := repoFiles[..|repoFiles| / 2];
        } else if |repoFiles| == 1 {
          repoFiles := [];
        } else if |artifactSummaries| > 1 {
          artifactSummaries := artifactSummaries[..|artifactSummaries| / 2];
        } else if |artifactSummaries| == 1 {
          artifactSummaries := [];
        } else if |recentRunSummaries| > 1 {
          recentRunSummaries := recentRunSummaries[..|recentRunSummaries| / 2];
        } else if |recentRunSummaries| == 1 {
          recentRunSummaries := [];
        } else if |memories| > 2 {
          memories := memories[..|memories| / 2];
        } else {
          return;
        }
        trims := trims + 1;
      }
    }
  }

  // ----- the sequence in closed form -----

  function HalfN(n: nat, j: nat): nat {
    if j == 0 then n else HalfN(n, j - 1) / 2
  }

  /** The first `n / 2^j` items. */
  function Cut(s: seq<string>, j: nat): (r: seq<string>)
    ensures r <= s
  {
    HalfNShrinks(|s|, j);
    s[..HalfN(|s|, j)]
  }

  lemma {:induction false} HalfNShrinks(n: nat, j: nat)
    ensures HalfN(n, j) <= n
    decreases j
  {
    if j > 0 {
      HalfNShrinks(n, j - 1);
    }
  }

  lemma {:induction false} HalvingsLeft(n: nat, j: nat)
    requires j <= Halvings(n)
    ensures Halvings(HalfN(n, j)) == Halvings(n) - j
    decreases j
  {
    if j > 0 {
      HalvingsLeft(n, j - 1);
    }
  }

  lemma {:induction false} MemoryHalvingsLeft(n: nat, j: nat)
    requires j <= MemoryHalvings(n)
    ensures MemoryHalvings(HalfN(n, j)) == MemoryHalvings(n) - j
    decreases j
  {
    if j > 0 {
      MemoryHalvingsLeft(n, j - 1);
    }
  }

  function Clamp(k: int, n: nat): nat {
    if k < 0 then 0 else if k > n then n else k
  }

  /** After `k` trims: files are cut until they are gone, then artifacts, then runs, then
      memories. */
  function Trimmed(c: Context, k: nat): Context {
    var f, a, r := Halvings(|c.files|), Halvings(|c.artifacts|), Halvings(|c.runs|);
    CutBy(c, Clamp(k, f), Clamp(k - f, a), Clamp(k - f - a, r), Clamp(k - f - a - r, MemoryHalvings(|c.memories|)))
  }

  /** How often each category has been cut. */
  function CutBy(c: Context, f: nat, a: nat, r: nat, m: nat): Context {
    Context(Cut(c.files, f), Cut(c.artifacts, a), Cut(c.runs, r), Cut(c.memories, m))
  }

  lemma CutOnce(s: seq<string>, j: nat)
    ensures Half(Cut(s, j)) == Cut(s, j + 1)
  {
    HalfNShrinks(|s|, j);
  }

  lemma CutSome(s: seq<string>, j: nat)
    requires j <= Halvings(|s|)
    ensures Cut(s, j) == [] <==> j == Halvings(|s|)
  {
    HalfNShrinks(|s|, j);
    HalvingsLeft(|s|, j);
  }

  lemma CutFew(s: seq<string>, j: nat)
    requires j <= MemoryHalvings(|s|)
    ensures |Cut(s, j)| <= 2 <==> j == MemoryHalvings(|s|)
  {
    HalfNShrinks(|s|, j);
    MemoryHalvingsLeft(|s|, j);
  }

  /** One more trim, by the category it hits. */
  lemma FilesNext(c: Context, j: nat)
    requires j < Halvings(|c.files|)
    ensures CanTrim(CutBy(c, j, 0, 0, 0)) && Trim(CutBy(c, j, 0, 0, 0)) == CutBy(c, j + 1, 0, 0, 0)
  {
    CutSome(c.files, j);
    CutOnce(c.files, j);
  }

  lemma ArtifactsNext(c: Context, f: nat, j: nat)
    requires f == Halvings(|c.files|) && j < Halvings(|c.artifacts|)
    ensures CanTrim(CutBy(c, f, j, 0, 0)) && Trim(CutBy(c, f, j, 0, 0)) == CutBy(c, f, j + 1, 0, 0)
  {
    CutSome(c.files, f);
    CutSome(c.artifacts, j);
    CutOnce(c.artifacts, j);
  }

  lemma RunsNext(c: Context, f: nat, a: nat, j: nat)
    requires f == Halvings(|c.files|) && a == Halvings(|c.artifacts|) && j < Halvings(|c.runs|)
    ensures CanTrim(CutBy(c, f, a, j, 0)) && Trim(CutBy(c, f, a, j, 0)) == CutBy(c, f, a, j + 1, 0)
  {
    CutSome(c.files, f);
    CutSome(c.artifacts, a);
    CutSome(c.runs, j);
    CutOnce(c.runs, j);
  }

  lemma MemoriesNext(c: Context, f: nat, a: nat, r: nat, j: nat)
    requires f == Halvings(|c.files|) && a == Halvings(|c.artifacts|) && r == Halvings(|c.runs|)
    requires j < MemoryHalvings(|c.memories|)
    ensures CanTrim(CutBy(c, f, a, r, j)) && Trim(CutBy(c, f, a, r, j)) == CutBy(c, f, a, r, j + 1)
  {
    CutSome(c.files, f);
    CutSome(c.artifacts, a);
    CutSome(c.runs, r);
    CutFew(c.memories, j);
    CutOnce(c.memories, j);
  }

  lemma TrimmedNext(c: Context, k: nat)
    requires k < MaxTrims(c)
    ensures CanTrim(Trimmed(c, k)) && Trim(Trimmed(c, k)) == Trimmed(c, k + 1)
  {
    var f, a, r := Halvings(|c.files|), Halvings(|c.artifacts|), Halvings(|c.runs|);
    if k < f {
      assert Trimmed(c, k) == CutBy(c, k, 0, 0, 0) && Trimmed(c, k + 1) == CutBy(c, k + 1, 0, 0, 0);
      FilesNext(c, k);
    } else if k < f + a {
      var j := k - f;
      assert Trimmed(c, k) == CutBy(c, f, j, 0, 0) && Trimmed(c, k + 1) == CutBy(c, f, j + 1, 0, 0);
      ArtifactsNext(c, f, j);
    } else if k < f + a + r {
      var j := k - f - a;
      assert Trimmed(c, k) == CutBy(c, f, a, j, 0) && Trimmed(c, k + 1) == CutBy(c, f, a, j + 1, 0);
      RunsNext(c, f, a, j);
    } else {
      var j := k - f - a - r;
      assert Trimmed(c, k) == CutBy(c, f, a, r, j) && Trimmed(c, k + 1) == CutBy(c, f, a, r, j + 1);
      MemoriesNext(c, f, a, r, j);
    }
  }

  /** The trimming sequence is the closed form: every category stays a prefix of what it was, and
      a category is touched only when all cheaper ones are empty. */
  lemma {:induction false} TrimNIs(c: Context, k: nat)
    requires k <= MaxTrims(c)
    ensures TrimN(c, k) == Trimmed(c, k)
    decreases k
  {
    if k == 0 {
    } else {
      TrimNIs(c, k - 1);
      TrimmedNext(c, k - 1);
    }
  }

  lemma OrderOfSacrifice(c: Context, k: nat)
    requires k <= MaxTrims(c)
    ensures var t := TrimN(c, k);
            && t.files <= c.files && t.artifacts <= c.artifacts && t.runs <= c.runs && t.memories <= c.memories
            && (t.artifacts != c.artifacts ==> t.files == [])
            && (t.runs != c.runs ==> t.files == [] && t.artifacts == [])
            && (t.memories != c.memories ==> t.files == [] && t.artifacts == [] && t.runs == [])
            && (!CanTrim(t) <==> k == MaxTrims(c))
  {
    TrimNIs(c, k);
    var f, a, r := Halvings(|c.files|), Halvings(|c.artifacts|), Halvings(|c.runs|);
    CutSome(c.files, Clamp(k, f));
    CutSome(c.artifacts, Clamp(k - f, a));
    CutSome(c.runs, Clamp(k - f - a, r));
    CutFew(c.memories, Clamp(k - f - a - r, MemoryHalvings(|c.memories|)));
  }

  /** A result that does not fit has given up everything it can: no files, artifacts or runs, and
      at most two memories. */
  lemma ResultIsLastResort(c: Context, size: Size, maxBytes: int, trims: nat)
    requires IsResult(c, size, maxBytes, trims)
    ensures var t := TrimN(c, trims);
            !Fits(t, size, maxBytes) ==> t.files == [] && t.artifacts == [] && t.runs == [] && |t.memories| <= 2
  {
  }

  // ----- mandatory memories -----

  /** The halvings after which at least `m` of `n` memories are left. */
  function Sparing(n: nat, m: nat): nat {
    if n <= 2 || n / 2 < m then 0 else 1 + Sparing(n / 2, m)
  }

  lemma {:induction false} HalfNShift(n: nat, j: nat)
    ensures HalfN(n / 2, j) == HalfN(n, j + 1)
    decreases j
  {
    if j > 0 {
      HalfNShift(n, j - 1);
    }
  }

  lemma {:induction false} SparingIs(n: nat, m: nat, j: nat)
    requires m <= n && j <= MemoryHalvings(n)
    ensures HalfN(n, j) >= m <==> j <= Sparing(n, m)
    decreases n
  {
    if j > 0 {
      HalfNShift(n, j - 1);
      if n / 2 < m {
        HalfNShrinks(n / 2, j - 1);
      } else {
        SparingIs(n / 2, m, j - 1);
      }
    }
  }

  /** The last point of the trimming sequence at which the first `m` memories are complete. */
  function LastSparing(c: Context, m: nat): nat {
    Halvings(|c.files|) + Halvings(|c.artifacts|) + Halvings(|c.runs|) + Sparing(|c.memories|, m)
  }

  lemma SparedUntil(c: Context, m: nat, k: nat)
    requires m <= |c.memories| && k <= MaxTrims(c)
    ensures |TrimN(c, k).memories| >= m <==> k <= LastSparing(c, m)
  {
    TrimNIs(c, k);
    var j := Clamp(k - Halvings(|c.files|) - Halvings(|c.artifacts|) - Halvings(|c.runs|), MemoryHalvings(|c.memories|));
    HalfNShrinks(|c.memories|, j);
    SparingIs(|c.memories|, m, j);
  }

  /** The result comes while there is something to trim. */
  lemma ResultInTime(c: Context, size: Size, maxBytes: int, trims: nat)
    requires IsResult(c, size, maxBytes, trims)
    ensures trims <= MaxTrims(c)
  {
    OrderOfSacrifice(c, MaxTrims(c));
  }

  lemma {:induction false} SparingInTime(n: nat, m: nat)
    ensures Sparing(n, m) <= MemoryHalvings(n)
    decreases n
  {
    if n > 2 && n / 2 >= m {
      SparingInTime(n / 2, m);
    }
  }

  /** The first `m` memories, the mandatory ones, survive if and only if one of the contexts up to
      the last point that spares them fits or has nothing left to trim; the stated purpose, that
      they always survive, does not hold. */
  lemma MandatoryKeptExactly(c: Context, size: Size, maxBytes: int, trims: nat, m: nat)
    requires IsResult(c, size, maxBytes, trims) && m <= |c.memories|
    ensures |TrimN(c, trims).memories| >= m
            <==> exists k :: 0 <= k <= LastSparing(c, m) && Done(Trimmed(c, k), size, maxBytes)
  {
    ResultInTime(c, size, maxBytes, trims);
    SparedUntil(c, m, trims);
    SparingInTime(|c.memories|, m);
    forall k | 0 <= k <= LastSparing(c, m) ensures TrimN(c, k) == Trimmed(c, k) {
      TrimNIs(c, k);
    }
    if exists k :: 0 <= k <= LastSparing(c, m) && Done(Trimmed(c, k), size, maxBytes) {
      var k :| 0 <= k <= LastSparing(c, m) && Done(Trimmed(c, k), size, maxBytes);
      assert Done(TrimN(c, k), size, maxBytes);
      assert k >= trims;
    }
  }

  /** Every context can be serialized, and trimming does not make it larger. */
  ghost predicate Shrinking(size: Size) {
    forall c: Context {:trigger Trim(c)} :: size(c).Some? && size(Trim(c)).Some? && size(Trim(c)).value <= size(c).value
  }

  lemma {:induction false} FitsStays(c: Context, size: Size, maxBytes: int, j: nat, k: nat)
    requires Shrinking(size) && j <= k && Fits(TrimN(c, j), size, maxBytes)
    ensures Fits(TrimN(c, k), size, maxBytes)
    decreases k
  {
    if j < k {
      FitsStays(c, size, maxBytes, j, k - 1);
      assert TrimN(c, k) == Trim(TrimN(c, k - 1));
    }
  }

  /** For such a size one test decides: the context cut down to the last point that spares the
      mandatory memories. */
  lemma MandatoryKeptIfSpared(c: Context, size: Size, maxBytes: int, trims: nat, m: nat)
    requires IsResult(c, size, maxBytes, trims) && m <= |c.memories| && Shrinking(size)
    ensures |TrimN(c, trims).memories| >= m <==> Done(Trimmed(c, LastSparing(c, m)), size, maxBytes)
  {
    var last := LastSparing(c, m);
    MandatoryKeptExactly(c, size, maxBytes, trims, m);
    SparingInTime(|c.memories|, m);
    forall k | 0 <= k <= last && Done(Trimmed(c, k), size, maxBytes) ensures Done(Trimmed(c, last), size, maxBytes) {
      DoneStays(c, size, maxBytes, k, last);
    }
  }

  lemma DoneStays(c: Context, size: Size, maxBytes: int, j: nat, k: nat)
    requires Shrinking(size) && j <= k <= MaxTrims(c) && Done(Trimmed(c, j), size, maxBytes)
    ensures Done(Trimmed(c, k), size, maxBytes)
  {
    TrimNIs(c, j);
    TrimNIs(c, k);
    if Fits(Trimmed(c, j), size, maxBytes) {
      FitsStays(c, size, maxBytes, j, k);
    } else {
      OrderOfSacrifice(c, j);
    }
  }

  /** Three mandatory memories in a context that is too large whatever is cut: one is left. */
  lemma ThreeBecomeOne(c: Context, size: Size, maxBytes: int, trims: nat)
    requires IsResult(c, size, maxBytes, trims) && |c.memories| == 3
    requires forall k :: 0 <= k <= trims ==> !Fits(TrimN(c, k), size, maxBytes)
    ensures TrimN(c, trims).memories == c.memories[..1]
  {
    ResultInTime(c, size, maxBytes, trims);
    OrderOfSacrifice(c, trims);
    TrimNIs(c, trims);
    assert HalfN(3, 1) == 1 && MemoryHalvings(3) == 1 by { assert HalfN(3, 0) == 3; }
    CutOnce(c.memories, 0);
  }
}
