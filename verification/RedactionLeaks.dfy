/** Exactly when the token behind a listed prefix can be told from the output of `Redact`. */
module RedactionLeaks {
  import opened Text
  import opened Redaction
  import opened RedactionSafety
  import opened RedactionSecrecy

  const SK: Pattern := Keeping("sk-")
  const BEAR: Pattern := Keeping(BEARER)

  // ----- passes over concatenations -----

  /** Scanning `a` for the prefix ends inside the token of an occurrence. */
  predicate Open(a: string, q: Pattern)
    requires q.prefix != ""
    decreases |a|
  {
    var i := Index(a, q.prefix);
    if i < 0 then false
    else
      var e := TokenEnd(a, i + |q.prefix|);
      e == |a| || Open(a[e..], q)
  }

  /** An occurrence that starts in `a` and ends in `y`. */
  ghost predicate StraddlesAt(a: string, y: string, p: string, k: int) {
    0 <= k < |a| < k + |p| && OccursAt(a + y, p, k)
  }

  ghost predicate Straddles(a: string, y: string, p: string) {
    exists k :: StraddlesAt(a, y, p, k)
  }

  /** What is left of `y` when a token that is open before it has been taken. */
  function Rest(a: string, y: string, q: Pattern): string
    requires q.prefix != ""
  {
    if Open(a, q) then y[TokenEnd(y, 0)..] else y
  }

  lemma PassEmpty(q: Pattern)
    requires q.prefix != ""
    ensures Pass("", q) == ""
  {
  }

  lemma ConcatNone(a: string, y: string, q: Pattern)
    requires q.prefix != "" && !Straddles(a, y, q.prefix) && Index(a, q.prefix) < 0
    ensures Pass(a + y, q) == Pass(a, q) + Pass(Rest(a, y, q), q)
  {
    IndexIsFirst(a, q.prefix);
    forall k | 0 <= k < |a| ensures !OccursAt(a + y, q.prefix, k) {
      if k + |q.prefix| <= |a| {
        OccursLeft(a, y, q.prefix, k);
      } else {
        assert !StraddlesAt(a, y, q.prefix, k);
      }
    }
    PassSkip(a, y, q);
  }

  lemma ConcatOpen(a: string, y: string, q: Pattern, i: nat)
    requires q.prefix != "" && Index(a, q.prefix) == i && TokenEnd(a, i + |q.prefix|) == |a|
    ensures Pass(a + y, q) == a[..i] + q.replacement + Pass(y[TokenEnd(y, 0)..], q)
  {
    var f := TokenEnd(y, 0);
    var t, b := y[..f], y[f..];
    assert NoDelim(t) && Boundary(b) by { TokenEndSpec(y, 0); }
    assert a + t + b == a + y by { Cut(a, y, f); }
    assert forall k :: i + |q.prefix| <= k < |a| ==> !IsDelim(a[k]) by { TokenEndSpec(a, i + |q.prefix|); }
    PassSwallows(a, t, b, q, i);
  }

  lemma Cut(a: string, y: string, f: nat)
    requires f <= |y|
    ensures a + y[..f] + y[f..] == a + y
  {
    assert y[..f] + y[f..] == y;
    Assoc3(a, y[..f], y[f..]);
  }

  lemma ConcatOpenEnd(a: string, y: string, q: Pattern, i: nat)
    requires q.prefix != "" && Index(a, q.prefix) == i && TokenEnd(a, i + |q.prefix|) == |a|
    ensures Pass(a + y, q) == Pass(a, q) + Pass(Rest(a, y, q), q)
  {
    var tail := y[TokenEnd(y, 0)..];
    assert Rest(a, y, q) == tail by { assert Open(a, q); }
    assert Pass(a + y, q) == a[..i] + q.replacement + Pass(tail, q) by { ConcatOpen(a, y, q, i); }
    PassOpenEnd(a, q, i);
  }

  lemma RestTurn(a: string, y: string, q: Pattern, i: nat, e: nat)
    requires q.prefix != "" && Index(a, q.prefix) == i && TokenEnd(a, i + |q.prefix|) == e < |a|
    ensures Rest(a, y, q) == Rest(a[e..], y, q)
  {
  }

  lemma PassOpenEnd(a: string, q: Pattern, i: nat)
    requires q.prefix != "" && Index(a, q.prefix) == i && TokenEnd(a, i + |q.prefix|) == |a|
    ensures Pass(a, q) == a[..i] + q.replacement
  {
    PassAt(a, q, i, |a|, a[..i], "");
    PassEmpty(q);
  }

  lemma StraddleShift(a: string, y: string, p: string, e: nat, k: int)
    requires e <= |a|
    ensures StraddlesAt(a[e..], y, p, k) ==> StraddlesAt(a, y, p, e + k)
  {
    if 0 <= k {
      assert a + y == a[..e] + (a[e..] + y) by {
        assert a == a[..e] + a[e..];
        Assoc3(a[..e], a[e..], y);
      }
      OccursRight(a[..e], a[e..] + y, p, e + k);
    }
  }

  lemma StraddleBehind(a: string, y: string, p: string, e: nat)
    requires e <= |a| && !Straddles(a, y, p)
    ensures !Straddles(a[e..], y, p)
  {
    forall k ensures !StraddlesAt(a[e..], y, p, k) {
      StraddleShift(a, y, p, e, k);
    }
  }

  /** A pass over a concatenation is the two passes, except that a token left open by the first
      text takes the beginning of the second with it. */
  lemma {:induction false} PassConcat(a: string, y: string, q: Pattern)
    requires q.prefix != "" && !Straddles(a, y, q.prefix)
    ensures Pass(a + y, q) == Pass(a, q) + Pass(Rest(a, y, q), q)
    decreases |a|
  {
    var i := Index(a, q.prefix);
    if i < 0 {
      ConcatNone(a, y, q);
    } else {
      var e := TokenEnd(a, i + |q.prefix|);
      if e == |a| {
        ConcatOpenEnd(a, y, q, i);
      } else {
        StraddleBehind(a, y, q.prefix, e);
        PassConcat(a[e..], y, q);
        RestTurn(a, y, q, i, e);
        ConcatTurn(a, y, q, i, e, Rest(a, y, q));
      }
    }
  }

  lemma ConcatTurn(a: string, y: string, q: Pattern, i: nat, e: nat, r: string)
    requires q.prefix != "" && Index(a, q.prefix) == i && TokenEnd(a, i + |q.prefix|) == e < |a|
    requires Pass(a[e..] + y, q) == Pass(a[e..], q) + Pass(r, q)
    ensures Pass(a + y, q) == Pass(a, q) + Pass(r, q)
  {
    var head, tail := a[..i] + q.replacement, a[e..];
    assert Pass(a + y, q) == head + Pass(tail + y, q) by { PassOpens(a, y, q, i, e); }
    assert Pass(a, q) == head + Pass(tail, q) by { PassAt(a, q, i, e, a[..i], tail); }
    Assoc3(head, Pass(tail, q), Pass(r, q));
  }

  lemma TokenEndBoundary(w: string, b: string)
    requires NoDelim(w) && Boundary(b)
    ensures TokenEnd(w + b, 0) == |w| && (w + b)[|w|..] == b
  {
    assert (w + b)[|w|..] == b;
    TokenEndIs(w + b, 0, |w|);
  }

  lemma NoStraddleBoundary(a: string, b: string, p: string)
    requires NoDelim(p) && Boundary(b)
    ensures !Straddles(a, b, p)
  {
    forall k ensures !StraddlesAt(a, b, p, k) {
      if StraddlesAt(a, b, p, k) {
        NoneAcrossEnd(a, b, p, k);
      }
    }
  }

  /** What begins with a delimiter is rewritten by itself. */
  lemma BoundaryConcat(a: string, b: string, q: Pattern)
    requires q.prefix != "" && NoDelim(q.prefix) && Boundary(b)
    ensures Pass(a + b, q) == Pass(a, q) + Pass(b, q)
  {
    NoStraddleBoundary(a, b, q.prefix);
    PassConcat(a, b, q);
    TokenEndBoundary("", b);
    assert "" + b == b;
  }

  ghost predicate Plain(ps: seq<Pattern>) {
    forall q :: q in ps ==> q.prefix != "" && Listed(q) && Inner(q.prefix) && NoDelim(q.prefix)
  }

  lemma {:induction false} PassesConcat(a: string, b: string, ps: seq<Pattern>)
    requires Plain(ps) && Boundary(b)
    ensures Passes(a + b, ps) == Passes(a, ps) + Passes(b, ps) && Boundary(Passes(b, ps))
    decreases ps
  {
    if ps != [] {
      BoundaryConcat(a, b, ps[0]);
      PassBoundary(b, ps[0]);
      PassesConcat(Pass(a, ps[0]), Pass(b, ps[0]), ps[1..]);
    }
  }

  /** A delimiter in front stays in front. */
  lemma DelimFirst(d: char, r: string, q: Pattern)
    requires IsDelim(d) && Listed(q)
    ensures Pass([d] + r, q) == [d] + Pass(r, q)
  {
    forall k | 0 <= k < 1 ensures !OccursAt([d] + r, q.prefix, k) {
      if OccursAt([d] + r, q.prefix, k) {
        OccursChar([d] + r, q.prefix, k, 0);
      }
    }
    PassSkip([d], r, q);
  }

  lemma {:induction false} DelimStays(d: char, r: string, ps: seq<Pattern>)
    requires IsDelim(d) && Plain(ps)
    ensures Passes([d] + r, ps) == [d] + Passes(r, ps)
    decreases ps
  {
    if ps != [] {
      DelimFirst(d, r, ps[0]);
      DelimStays(d, Pass(r, ps[0]), ps[1..]);
    }
  }

  // ----- a single token -----

  /** A token stays a token. It becomes the bare marker only if it was the bare marker. */
  lemma TokenPass(t: string, q: Pattern)
    requires NoDelim(t) && Listed(q) && NoDelim(q.prefix)
    ensures NoDelim(Pass(t, q)) && (Pass(t, q) == MARK <==> t == MARK)
    ensures Index(t, q.prefix) < 0 ==> Pass(t, q) == t
    ensures Index(t, q.prefix) >= 0 ==> Pass(t, q) != "" && Pass(t, q)[|Pass(t, q)| - 1] == ']'
  {
    var j := Index(t, q.prefix);
    if j >= 0 {
      IndexIsFirst(t, q.prefix);
      TokenAfterReplacement(t, j, q);
      PassLastToken(t, "", q, j);
      PassEmpty(q);
      assert t + "" == t;
      assert Pass(t, q) == t[..j] + q.replacement;
      ReplacementShape(q);
      ReplacedIsNotMark(t[..j], q);
      MarkHasNoPrefix(q);
    }
  }

  lemma ReplacedIsNotMark(x: string, q: Pattern)
    requires Listed(q)
    ensures x + q.replacement != MARK
  {
    var s := x + q.replacement;
    if Keeps(q) {
      var k :| 0 <= k < |q.prefix| && !MarkerChar(q.prefix[k]);
      assert s[|x| + k] == q.prefix[k];
      assert |s| > |MARK|;
    } else {
      assert |s| > |MARK|;
    }
  }

  lemma MarkHasNoPrefix(q: Pattern)
    requires Listed(q)
    ensures Index(MARK, q.prefix) < 0
  {
    var mark := MARK;
    IndexIsFirst(mark, q.prefix);
    var i := Index(mark, q.prefix);
    if i >= 0 {
      var k :| 0 <= k < |q.prefix| && !MarkerChar(q.prefix[k]);
      OccursChar(mark, q.prefix, i, k);
      MarkChar(i + k);
    }
  }

  lemma {:induction false} TokenPasses(t: string, ps: seq<Pattern>)
    requires NoDelim(t) && Plain(ps)
    ensures NoDelim(Passes(t, ps)) && (Passes(t, ps) == MARK <==> t == MARK)
    decreases ps
  {
    if ps != [] {
      TokenPass(t, ps[0]);
      TokenPasses(Pass(t, ps[0]), ps[1..]);
    }
  }

  // ----- the first two patterns -----

  lemma FirstTwo()
    ensures Listed(SK) && Inner(SK.prefix) && Hides(SK.prefix) && Listed(BEAR) && Inner(BEARER)
    ensures PATTERNS == [SK, BEAR] + LATER_PATTERNS
  {
    KeyPrefixes();
    KeyPatternListed(SK);
    KeyPatternListed(BEAR);
    Regroup(KEY_PATTERNS, TOKEN_PATTERNS, PASSWORD_PATTERNS, AWS_PATTERNS, GITHUB_PATTERNS, OTHER_PATTERNS);
  }

  lemma Regroup(a: seq<Pattern>, b: seq<Pattern>, c: seq<Pattern>, d: seq<Pattern>, e: seq<Pattern>, f: seq<Pattern>)
    ensures a + b + c + d + e + f == a + (b + c + d + e + f)
  {
  }

  lemma LaterArePlain()
    ensures Plain(LATER_PATTERNS)
  {
    forall q | q in LATER_PATTERNS ensures q.prefix != "" && Listed(q) && Inner(q.prefix) && NoDelim(q.prefix) {
      LaterPrefix(q);
    }
  }

  lemma PassesTwice(s: string, x: Pattern, y: Pattern, ps: seq<Pattern>)
    requires x.prefix != "" && y.prefix != "" && forall p :: p in ps ==> p.prefix != ""
    ensures Passes(s, [x, y] + ps) == Passes(Pass(Pass(s, x), y), ps)
  {
    assert ([x, y] + ps)[1..] == [y] + ps && ([y] + ps)[1..] == ps;
  }

  /** All prefix passes: the `sk-` pass, the `Bearer ` pass, then the others. */
  lemma AllPasses(s: string)
    ensures (forall p :: p in PATTERNS ==> p.prefix != "") && (forall p :: p in LATER_PATTERNS ==> p.prefix != "")
    ensures Passes(s, PATTERNS) == Passes(Pass(Pass(s, SK), BEAR), LATER_PATTERNS)
  {
    PatternsNonEmpty();
    LaterArePlain();
    FirstTwo();
    PassesTwice(s, SK, BEAR, LATER_PATTERNS);
  }

  // ----- the two passes at a later prefix -----

  ghost predicate EndsInBearer(t: string) {
    |t| >= 6 && t[|t| - 6..] == "Bearer"
  }

  /** What a later prefix looks like, as far as the first two patterns are concerned. */
  ghost predicate Later(p: string) {
    Hides(p) && NoKeyDash(p)
  }

  ghost predicate NoKeyDash(p: string) {
    p != "" && p[0] != 'k' && forall k :: 0 <= k < |p| && p[k] == '-' ==> k > 0 && p[k - 1] != 'k'
  }

  lemma NoStraddleSk(a: string, y: string)
    requires y == "" || (y[0] != 'k' && y[0] != '-')
    ensures !Straddles(a, y, SK.prefix)
  {
    forall k ensures !StraddlesAt(a, y, SK.prefix, k) {
      if StraddlesAt(a, y, SK.prefix, k) {
        assert (a + y)[|a|] == y[0];
        OccursChar(a + y, SK.prefix, k, |a| - k);
      }
    }
  }

  lemma NoStraddleBearer(a: string, y: string)
    requires y == "" || (y[0] != 'e' && y[0] != 'a' && y[0] != 'r' && y[0] != ' ')
             || (y[0] == ' ' && (a == "" || a[|a| - 1] != 'r'))
    ensures !Straddles(a, y, BEARER)
  {
    forall k ensures !StraddlesAt(a, y, BEARER, k) {
      if StraddlesAt(a, y, BEARER, k) {
        assert (a + y)[|a|] == y[0] && (a + y)[|a| - 1] == a[|a| - 1];
        OccursChar(a + y, BEARER, k, |a| - k);
        OccursBack(a + y, BEARER, k, |a| - 1);
      }
    }
  }

  lemma NoStraddleWord(a: string, p: string, y: string)
    requires Later(p)
    ensures !Straddles(a, p + y, BEARER)
  {
    forall k ensures !StraddlesAt(a, p + y, BEARER, k) {
      if StraddlesAt(a, p + y, BEARER, k) {
        assert a + (p + y) == a + p + y;
        KeyPrefixes();
        NoCrossing(a, p, y, BEARER, k);
        assert (a + p + y)[k + 6] == p[k + 6 - |a|];
        OccursChar(a + p + y, BEARER, k, 6);
      }
    }
  }

  lemma NoSkInPrefix(p: string, t: string)
    requires Later(p)
    ensures Pass(p + t, SK) == p + Pass(t, SK)
  {
    forall k | 0 <= k < |p| ensures !OccursAt(p + t, SK.prefix, k) {
      if OccursAt(p + t, SK.prefix, k) {
        KeyPrefixes();
        assert "" + p + t == p + t;
        NoCrossing("", p, t, SK.prefix, k);
        assert (p + t)[k + 1] == p[k + 1] && (p + t)[k + 2] == p[k + 2];
        OccursBack(p + t, SK.prefix, k, k + 1);
        OccursBack(p + t, SK.prefix, k, k + 2);
      }
    }
    PassSkip(p, t, SK);
  }

  /** The `sk-` pass: a token left open by `a` takes prefix and token; otherwise they are passed
      over and the token at most ends in a marker of its own. */
  lemma SkStep(a: string, p: string, t: string, b: string)
    requires Later(p) && NoDelim(t) && Boundary(b)
    ensures Pass(a + p + t + b, SK)
         == if Open(a, SK) then Pass(a, SK) + Pass(b, SK) else Pass(a, SK) + p + Pass(t, SK) + Pass(b, SK)
  {
    FirstTwo();
    var y := p + t + b;
    assert a + p + t + b == a + y by { Regrouped(a, p, t, b); }
    assert y[0] == p[0];
    NoStraddleSk(a, y);
    PassConcat(a, y, SK);
    if Open(a, SK) {
      TokenEndBoundary(p + t, b);
    } else {
      BoundaryConcat(p + t, b, SK);
      NoSkInPrefix(p, t);
      Regrouped(Pass(a, SK), p, Pass(t, SK), Pass(b, SK));
    }
  }

  /** What the `Bearer ` pass makes of `b` behind a word, which ends in `Bearer` or not. */
  function Tail(b: string, bit: bool): string {
    if bit && b != "" && b[0] == ' '
    then " " + MARK + Pass(b[TokenEnd(b, 1)..], BEAR)
    else Pass(b, BEAR)
  }

  lemma NoBearerInWord(w: string, b: string, k: int)
    requires NoDelim(w) && Boundary(b) && 0 <= k < |w| && OccursAt(w + b, BEARER, k)
    ensures k == |w| - 6 && EndsInBearer(w) && b != "" && b[0] == ' '
  {
    assert k + 6 < |w| ==> (w + b)[k + 6] == w[k + 6];
    OccursChar(w + b, BEARER, k, 6);
    if k + 6 > |w| {
      assert (w + b)[|w|] == b[0];
      OccursChar(w + b, BEARER, k, |w| - k);
    } else {
      assert (w + b)[|w|] == b[0];
      assert w[k..] == "Bearer" by {
        assert (w + b)[k..k + 7][..6] == w[k..k + 6];
        assert BEARER[..6] == "Bearer";
      }
    }
  }

  lemma BearerAtEnd(w: string, b: string)
    requires NoDelim(w) && EndsInBearer(w) && b != "" && b[0] == ' '
    ensures OccursAt(w + b, BEARER, |w| - 6)
  {
    var k := |w| - 6;
    assert (w + b)[k..k + 7] == w[k..] + [b[0]];
    assert BEARER == "Bearer" + [' '];
  }

  lemma FirstBearer(w: string, b: string)
    requires NoDelim(w) && Boundary(b) && EndsInBearer(w) && b != "" && b[0] == ' '
    ensures Index(w + b, BEARER) == |w| - 6
  {
    BearerAtEnd(w, b);
    forall j | 0 <= j < |w| - 6 ensures !OccursAt(w + b, BEARER, j) {
      if OccursAt(w + b, BEARER, j) {
        NoBearerInWord(w, b, j);
      }
    }
    IndexUnique(w + b, BEARER, |w| - 6);
  }

  lemma HeadAndMark(w: string, m: string)
    requires EndsInBearer(w)
    ensures w[..|w| - 6] + (BEARER + m) == w + " " + m
  {
    assert w == w[..|w| - 6] + "Bearer";
    assert BEARER == "Bearer" + " ";
  }

  lemma TokenEndPastWord(w: string, b: string)
    requires b != ""
    ensures TokenEnd(w + b, |w| + 1) == |w| + TokenEnd(b, 1)
    ensures (w + b)[|w| + TokenEnd(b, 1)..] == b[TokenEnd(b, 1)..]
  {
    TokenEndShift(w, b, 1);
  }

  lemma WordBearer(w: string, b: string)
    requires NoDelim(w) && EndsInBearer(w) && b != "" && b[0] == ' '
    ensures Pass(w + b, BEAR) == w + Tail(b, true)
  {
    var i, e := |w| - 6, TokenEnd(b, 1);
    var r := b[e..];
    assert Pass(w + b, BEAR) == w[..i] + (BEARER + MARK) + Pass(r, BEAR) by {
      FirstBearer(w, b);
      TokenEndPastWord(w, b);
      assert (w + b)[..i] == w[..i];
      PassAt(w + b, BEAR, i, |w| + e, w[..i], r);
    }
    var mark := MARK;
    HeadAndMark(w, mark);
    Regrouped(w, " ", mark, Pass(r, BEAR));
  }

  lemma Regrouped(a: string, b: string, c: string, d: string)
    ensures a + b + c + d == a + (b + c + d)
  {
  }

  /** The `Bearer ` pass over a word and what follows it. */
  lemma WordThen(w: string, b: string)
    requires NoDelim(w) && Boundary(b)
    ensures Pass(w + b, BEAR) == w + Tail(b, EndsInBearer(w))
  {
    if EndsInBearer(w) && b != "" && b[0] == ' ' {
      WordBearer(w, b);
    } else {
      forall k | 0 <= k < |w| ensures !OccursAt(w + b, BEARER, k) {
        if OccursAt(w + b, BEARER, k) {
          NoBearerInWord(w, b, k);
        }
      }
      PassSkip(w, b, BEAR);
    }
  }

  /** A later prefix does not end like `Bearer`, so a word behind it ends in `Bearer` alone. */
  lemma PrefixKeepsEnd(p: string, u: string)
    requires Hides(p)
    ensures EndsInBearer(p + u) == EndsInBearer(u)
  {
    var w := p + u;
    if |u| >= 6 {
      assert w[|w| - 6..] == u[|u| - 6..];
    } else if |w| >= 6 {
      assert w[|w| - 6..][5 - |u|] == p[|p| - 1];
    }
  }

  /** The `Bearer ` pass at a later prefix and a token. */
  lemma BearerStep(x: string, p: string, u: string, b: string)
    requires Later(p) && NoDelim(u) && Boundary(b)
    ensures Pass(x + p + u + b, BEAR)
         == if Open(x, BEAR) then Pass(x, BEAR) + Pass(b, BEAR) else Pass(x, BEAR) + p + u + Tail(b, EndsInBearer(u))
  {
    var y := p + u + b;
    Regrouped(x, p, u, b);
    assert p + (u + b) == y;
    NoStraddleWord(x, p, u + b);
    PassConcat(x, y, BEAR);
    if Open(x, BEAR) {
      TokenEndBoundary(p + u, b);
    } else {
      WordThen(p + u, b);
      PrefixKeepsEnd(p, u);
      Regrouped(Pass(x, BEAR), p, u, Tail(b, EndsInBearer(u)));
    }
  }

  /** The one bit of a token that can be told from the output. */
  ghost predicate Bit(t: string) {
    EndsInBearer(t) && Index(t, SK.prefix) < 0
  }

  lemma BitIs(t: string)
    requires NoDelim(t)
    ensures EndsInBearer(Pass(t, SK)) == Bit(t) && NoDelim(Pass(t, SK))
  {
    FirstTwo();
    TokenPass(t, SK);
    var u := Pass(t, SK);
    if EndsInBearer(u) {
      assert u[|u| - 6..][5] == u[|u| - 1];
    }
  }

  /** The text that enters the URL pass, as a function of the surroundings and that bit. */
  ghost function Outcome(a: string, p: string, b: string, bit: bool): string
    requires forall q :: q in LATER_PATTERNS ==> q.prefix != ""
  {
    var x, b1 := Pass(a, SK), Pass(b, SK);
    if Open(a, SK) then Passes(Pass(x + b1, BEAR), LATER_PATTERNS)
    else if Open(x, BEAR) then Passes(Pass(x, BEAR) + Pass(b1, BEAR), LATER_PATTERNS)
    else Passes(Pass(x, BEAR) + p, LATER_PATTERNS) + Passes(Tail(b1, bit), LATER_PATTERNS)
  }

  /** The other patterns hide the token and rewrite what follows by itself. */
  lemma LaterSteps(y: string, p: string, u: string, c: string)
    requires Hides(p) && NoDelim(u) && Boundary(c) && exists q :: q in LATER_PATTERNS && q.prefix == p
    ensures forall q :: q in LATER_PATTERNS ==> q.prefix != ""
    ensures Passes(y + p + u + c, LATER_PATTERNS) == Passes(y + p, LATER_PATTERNS) + Passes(c, LATER_PATTERNS)
  {
    LaterArePlain();
    LaterStepsOf(y, p, u, c, LATER_PATTERNS);
  }

  lemma LaterStepsOf(y: string, p: string, u: string, c: string, ps: seq<Pattern>)
    requires Plain(ps) && Hides(p) && NoDelim(u) && Boundary(c) && exists q :: q in ps && q.prefix == p
    ensures Passes(y + p + u + c, ps) == Passes(y + p, ps) + Passes(c, ps)
  {
    PassesConcat(y + p + u, c, ps);
    PassesForget(y, p, u, ps, "");
  }

  lemma PassesForget(y: string, p: string, u: string, ps: seq<Pattern>, none: string)
    requires Plain(ps) && Hides(p) && NoDelim(u) && none == "" && exists q :: q in ps && q.prefix == p
    ensures Passes(y + p + u, ps) == Passes(y + p, ps)
  {
    PassesHide(Split(y, u, none, none), p, ps);
    assert y + p + u + none == y + p + u && y + p + none + none == y + p;
  }

  lemma TailBoundary(b: string, bit: bool)
    requires Boundary(b)
    ensures Boundary(Tail(b, bit))
  {
    FirstTwo();
    PassBoundary(b, BEAR);
  }

  /** Everything but one bit of the token is hidden from the text that enters the URL pass. */
  lemma TokenLeavesOneBit(a: string, q: Pattern, t: string, b: string)
    requires q in LATER_PATTERNS && Later(q.prefix) && NoDelim(t) && Boundary(b)
    ensures (forall p :: p in PATTERNS ==> p.prefix != "") && (forall p :: p in LATER_PATTERNS ==> p.prefix != "")
    ensures Passes(a + q.prefix + t + b, PATTERNS) == Outcome(a, q.prefix, b, Bit(t))
  {
    var p := q.prefix;
    var x, u, b1 := Pass(a, SK), Pass(t, SK), Pass(b, SK);
    AllPasses(a + p + t + b);
    SkStep(a, p, t, b);
    if !Open(a, SK) {
      BitIs(t);
      assert Boundary(b1) by { FirstTwo(); PassBoundary(b, SK); }
      BearerStep(x, p, u, b1);
      if !Open(x, BEAR) {
        TailBoundary(b1, Bit(t));
        LaterSteps(Pass(x, BEAR), p, u, Tail(b1, Bit(t)));
      }
    }
  }

  lemma LaterShapes(q: Pattern)
    requires q in LATER_PATTERNS
    ensures Later(q.prefix)
  {
    LaterPrefix(q);
    assert NoKeyDash(q.prefix) by {
      if q in TOKEN_PATTERNS {
        TokenShapes(q);
      } else if q in PASSWORD_PATTERNS {
        PasswordShapes(q);
      } else {
        VendorShapes(q);
      }
    }
  }

  lemma TokenShapes(q: Pattern)
    requires q in TOKEN_PATTERNS
    ensures NoKeyDash(q.prefix)
  {
  }

  lemma PasswordShapes(q: Pattern)
    requires q in PASSWORD_PATTERNS
    ensures NoKeyDash(q.prefix)
  {
  }

  lemma VendorShapes(q: Pattern)
    requires q in AWS_PATTERNS || q in GITHUB_PATTERNS || q in OTHER_PATTERNS
    ensures NoKeyDash(q.prefix)
  {
  }

  // ----- when the bit shows -----

  /** The text behind the token starts with a space and a first word that is not the marker. */
  ghost predicate Exposed(b: string) {
    b != "" && b[0] == ' ' && b[1..TokenEnd(b, 1)] != MARK
  }

  lemma Spaced(w: string, r: string, q: Pattern)
    requires NoDelim(w) && Boundary(r) && Listed(q) && NoDelim(q.prefix)
    ensures Pass(" " + w + r, q) == " " + Pass(w, q) + Pass(r, q)
  {
    assert [' '] + (w + r) == " " + w + r;
    DelimFirst(' ', w + r, q);
    BoundaryConcat(w, r, q);
    assert [' '] + (Pass(w, q) + Pass(r, q)) == " " + Pass(w, q) + Pass(r, q);
  }

  lemma {:induction false} SpacedPasses(w: string, r: string, ps: seq<Pattern>)
    requires NoDelim(w) && Boundary(r) && Plain(ps)
    ensures Passes(" " + w + r, ps) == " " + Passes(w, ps) + Passes(r, ps)
    ensures NoDelim(Passes(w, ps)) && Boundary(Passes(r, ps))
    decreases ps
  {
    if ps != [] {
      Spaced(w, r, ps[0]);
      TokenPass(w, ps[0]);
      PassBoundary(r, ps[0]);
      SpacedPasses(Pass(w, ps[0]), Pass(r, ps[0]), ps[1..]);
    }
  }

  lemma SpacedEnd(w: string, r: string)
    requires NoDelim(w) && Boundary(r)
    ensures TokenEnd(" " + w + r, 1) == 1 + |w| && (" " + w + r)[1..1 + |w|] == w && (" " + w + r)[1 + |w|..] == r
  {
    var s := " " + w + r;
    assert s[1 + |w|..] == r;
    TokenEndIs(s, 1, 1 + |w|);
  }

  lemma SameWord(w1: string, r1: string, w2: string, r2: string)
    requires NoDelim(w1) && NoDelim(w2) && Boundary(r1) && Boundary(r2)
    requires " " + w1 + r1 == " " + w2 + r2
    ensures w1 == w2
  {
    SpacedEnd(w1, r1);
    SpacedEnd(w2, r2);
  }

  /** The two tails at a space and a word. */
  lemma TailTaken(w: string, r: string)
    requires NoDelim(w) && Boundary(r)
    ensures Tail(" " + w + r, true) == " " + MARK + Pass(r, BEAR)
  {
    SpacedEnd(w, r);
  }

  lemma TailLeft(w: string, r: string)
    requires NoDelim(w) && Boundary(r)
    ensures Tail(" " + w + r, false) == " " + w + Tail(r, EndsInBearer(w))
  {
    var t := Tail(r, EndsInBearer(w));
    Assoc3(" ", w, r);
    Assoc3(" ", w, t);
    assert Pass([' '] + (w + r), BEAR) == [' '] + (w + t) by {
      FirstTwo();
      DelimFirst(' ', w + r, BEAR);
      WordThen(w, r);
    }
  }

  lemma MarkIsWord(m: string)
    requires m == MARK
    ensures NoDelim(m) && !EndsInBearer(m)
  {
    forall k | 0 <= k < |m| ensures !IsDelim(m[k]) { MarkChar(k); }
    assert m[|m| - 6..][5] == ']';
  }

  /** Behind a space and a word the tails differ, even after the other patterns, if and only if
      the word is not the marker. */
  lemma TailsDifferAtSpace(w: string, r: string, ps: seq<Pattern>)
    requires NoDelim(w) && Boundary(r) && Plain(ps)
    ensures Passes(Tail(" " + w + r, true), ps) == Passes(Tail(" " + w + r, false), ps) <==> w == MARK
  {
    var mark := MARK;
    MarkIsWord(mark);
    TailTaken(w, r);
    TailLeft(w, r);
    var c1, c2 := Pass(r, BEAR), Tail(r, EndsInBearer(w));
    if w != mark {
      assert Boundary(c1) && Boundary(c2) by {
        TailBoundary(r, false);
        TailBoundary(r, EndsInBearer(w));
      }
      SpacedPasses(mark, c1, ps);
      SpacedPasses(w, c2, ps);
      TokenPasses(w, ps);
      TokenPasses(mark, ps);
      if Passes(Tail(" " + w + r, true), ps) == Passes(Tail(" " + w + r, false), ps) {
        SameWord(Passes(mark, ps), Passes(c1, ps), Passes(w, ps), Passes(c2, ps));
      }
    }
  }

  lemma SplitAtSpace(b: string) returns (w: string, r: string)
    requires b != "" && b[0] == ' '
    ensures NoDelim(w) && Boundary(r) && b == " " + w + r && w == b[1..TokenEnd(b, 1)]
  {
    var e := TokenEnd(b, 1);
    TokenEndSpec(b, 1);
    w, r := b[1..e], b[e..];
    assert forall k :: 0 <= k < |w| ==> w[k] == b[1 + k];
    assert b[..1] == " " && b == b[..1] + w + r;
  }

  lemma TailsDifferBehind(b: string)
    requires b != "" && b[0] == ' ' && Plain(LATER_PATTERNS)
    ensures Passes(Tail(Pass(b, SK), true), LATER_PATTERNS) != Passes(Tail(Pass(b, SK), false), LATER_PATTERNS) <==> Exposed(b)
  {
    var w, r := SplitAtSpace(b);
    var w1, r1 := Pass(w, SK), Pass(r, SK);
    assert Pass(b, SK) == " " + w1 + r1 && NoDelim(w1) && Boundary(r1) && (w1 == MARK <==> w == MARK) by {
      FirstTwo();
      Spaced(w, r, SK);
      TokenPass(w, SK);
      PassBoundary(r, SK);
    }
    TailsDifferAtSpace(w1, r1, LATER_PATTERNS);
  }

  /** The tails of a boundary differ if and only if it is exposed. */
  lemma TailsDiffer(b: string)
    requires Boundary(b)
    ensures forall p :: p in LATER_PATTERNS ==> p.prefix != ""
    ensures Passes(Tail(Pass(b, SK), true), LATER_PATTERNS) != Passes(Tail(Pass(b, SK), false), LATER_PATTERNS) <==> Exposed(b)
  {
    LaterArePlain();
    if b != "" && b[0] == ' ' {
      TailsDifferBehind(b);
    } else {
      TailsSame(b);
    }
  }

  lemma TailsSame(b: string)
    requires Boundary(b) && (b == "" || b[0] != ' ')
    ensures Tail(Pass(b, SK), true) == Tail(Pass(b, SK), false)
  {
    if b == "" {
      PassEmpty(SK);
    } else {
      assert [b[0]] + b[1..] == b;
      assert Pass(b, SK) == [b[0]] + Pass(b[1..], SK) by {
        FirstTwo();
        DelimFirst(b[0], b[1..], SK);
      }
    }
  }

  // ----- what the URL pass cannot hide -----

  function Ats(s: string): nat {
    if s == "" then 0 else (if s[0] == '@' then 1 else 0) + Ats(s[1..])
  }

  lemma {:induction false} AtsAppend(x: string, y: string)
    ensures Ats(x + y) == Ats(x) + Ats(y)
    decreases |x|
  {
    if x == "" {
      assert x + y == y;
    } else {
      assert (x + y)[1..] == x[1..] + y;
      AtsAppend(x[1..], y);
    }
  }

  lemma {:induction false} NoAts(s: string)
    requires forall k :: 0 <= k < |s| ==> s[k] != '@'
    ensures Ats(s) == 0
    decreases |s|
  {
    if s != "" {
      NoAts(s[1..]);
    }
  }

  lemma {:induction false} AtsZero(s: string, k: nat)
    requires Ats(s) == 0 && k < |s|
    ensures s[k] != '@'
    decreases |s|
  {
    if k > 0 {
      AtsZero(s[1..], k - 1);
    }
  }

  lemma AtsOne(t: string)
    requires |t| == 1
    ensures Ats(t) == if t[0] == '@' then 1 else 0
  {
    assert t[1..] == "";
  }

  lemma MarkHasNoAts(m: string)
    requires m == MARK || m == AWS_MARK
    ensures Ats(m) == 0
  {
    forall k | 0 <= k < |m| ensures m[k] != '@' {
      if m == MARK { MarkChar(k); } else { AwsMarkChar(k); }
    }
    NoAts(m);
  }

  lemma AtsThree(x: string, y: string, z: string)
    ensures Ats(x + y + z) == Ats(x) + Ats(y) + Ats(z)
  {
    AtsAppend(x + y, z);
    AtsAppend(x, y);
  }

  lemma AtsOfCut(s: string, i: nat, e: nat, x: string, y: string, z: string)
    requires i <= e <= |s| && x == s[..i] && y == s[i..e] && z == s[e..]
    ensures Ats(s) == Ats(x) + Ats(y) + Ats(z)
  {
    assert s == x + y + z by { assert x + y == s[..e]; }
    AtsThree(x, y, z);
  }

  /** The password that is replaced lies in front of the first `@`. */
  lemma UrlStepKeepsAts(s: string, scheme: string)
    ensures Ats(UrlStep(s, scheme)) == Ats(s)
  {
    var i := Index(s, scheme);
    if i >= 0 {
      var rest := s[i + |scheme|..];
      var at := Index(rest, "@");
      if at >= 0 && Index(rest[..at], ":") >= 0 {
        UrlStepAts(s, scheme, at, Index(rest[..at], ":"), ":" + MARK);
      }
    }
  }

  lemma UrlStepAts(s: string, scheme: string, at: nat, colon: nat, m: string)
    requires Index(s, scheme) >= 0 && m == ":" + MARK
    requires var rest := s[Index(s, scheme) + |scheme|..]; Index(rest, "@") == at && Index(rest[..at], ":") == colon
    ensures Ats(UrlStep(s, scheme)) == Ats(s)
  {
    var base := Index(s, scheme) + |scheme|;
    var i, e := base + colon, base + at;
    assert i <= e <= |s| && Ats(s[i..e]) == 0 by {
      SeparatorAt(s[base..][..at], ":", colon);
      InFrontOfAt(s, base, at, colon);
    }
    var r := UrlStep(s, scheme);
    assert r == s[..i] + m + s[e..] by { UrlStepAt(s, scheme, at, colon); }
    assert Ats(m) == 0 by { SeparatorHasNoAts(m); }
    AtsReplaced(s, i, e, m, r);
  }

  lemma AtsReplaced(s: string, i: nat, e: nat, m: string, r: string)
    requires i <= e <= |s| && Ats(s[i..e]) == 0 && Ats(m) == 0 && r == s[..i] + m + s[e..]
    ensures Ats(r) == Ats(s)
  {
    AtsOfCut(s, i, e, s[..i], s[i..e], s[e..]);
    AtsThree(s[..i], m, s[e..]);
  }

  lemma SeparatorHasNoAts(m: string)
    requires m == ":" + MARK
    ensures Ats(m) == 0
  {
    var mark := MARK;
    MarkHasNoAts(mark);
    AtsAppend(":", mark);
    AtsOne(":");
  }

  lemma InFrontOfAt(s: string, base: nat, at: nat, colon: nat)
    requires base <= |s| && Index(s[base..], "@") == at && colon <= at
    ensures base + at <= |s| && Ats(s[base + colon..base + at]) == 0
  {
    var rest, y := s[base..], s[base + colon..base + at];
    assert forall k :: 0 <= k < at ==> !OccursAt(rest, "@", k) by { IndexIsFirst(rest, "@"); }
    forall k | 0 <= k < |y| ensures y[k] != '@' {
      assert y[k] == rest[colon + k];
      NoOccurrence(rest, "@", colon + k);
    }
    NoAts(y);
  }

  lemma NoOccurrence(s: string, p: string, k: int)
    requires |p| == 1 && 0 <= k < |s| && !OccursAt(s, p, k)
    ensures s[k] != p[0]
  {
    assert s[k..k + 1] == [s[k]];
  }

  lemma {:induction false} UrlStepsKeepAts(s: string, schemes: seq<string>)
    ensures Ats(UrlSteps(s, schemes)) == Ats(s)
    decreases schemes
  {
    if schemes != [] {
      UrlStepKeepsAts(s, schemes[0]);
      UrlStepsKeepAts(UrlStep(s, schemes[0]), schemes[1..]);
    }
  }

  /** Without an `@` there is no password to replace. */
  lemma {:induction false} UrlStepsIdle(s: string, schemes: seq<string>)
    requires Ats(s) == 0
    ensures UrlSteps(s, schemes) == s
    decreases schemes
  {
    if schemes != [] {
      UrlStepIdle(s, schemes[0]);
      UrlStepsIdle(s, schemes[1..]);
    }
  }

  lemma UrlStepIdle(s: string, scheme: string)
    requires Ats(s) == 0
    ensures UrlStep(s, scheme) == s
  {
    var i := Index(s, scheme);
    if i >= 0 {
      var rest := s[i + |scheme|..];
      var at := Index(rest, "@");
      if at >= 0 {
        IndexIsFirst(rest, "@");
        AtsZero(s, i + |scheme| + at);
        OccursChar(rest, "@", at, 0);
      }
    }
  }

  lemma ReplacementHasNoAts(q: Pattern)
    requires Listed(q)
    ensures Ats(q.replacement) == 0
  {
    if Keeps(q) {
      var mark := MARK;
      MarkHasNoAts(mark);
      NoAts(q.prefix);
      AtsAppend(q.prefix, mark);
    } else {
      MarkHasNoAts(q.replacement);
    }
  }

  lemma {:induction false} PassAddsNoAts(s: string, q: Pattern)
    requires Listed(q)
    ensures Ats(Pass(s, q)) <= Ats(s)
    decreases |s|
  {
    var i := Index(s, q.prefix);
    if i >= 0 {
      var e := TokenEnd(s, i + |q.prefix|);
      var x, y, z := s[..i], s[i..e], s[e..];
      PassAddsNoAts(z, q);
      assert Ats(Pass(s, q)) == Ats(x) + Ats(Pass(z, q)) by {
        PassAt(s, q, i, e, x, z);
        ReplacementHasNoAts(q);
        AtsThree(x, q.replacement, Pass(z, q));
      }
      AtsOfCut(s, i, e, x, y, z);
    }
  }

  lemma {:induction false} PassesAddNoAts(s: string, ps: seq<Pattern>)
    requires forall q :: q in ps ==> q.prefix != "" && Listed(q)
    ensures Ats(Passes(s, ps)) <= Ats(s)
    decreases ps
  {
    if ps != [] {
      PassAddsNoAts(s, ps[0]);
      PassesAddNoAts(Pass(s, ps[0]), ps[1..]);
    }
  }

  // ----- tokens behind a prefix other than `Bearer ` -----

  ghost predicate SameTextFor(a: string, p: string, b: string, t1: string, t2: string) {
    PatternsNonEmpty();
    NoDelim(t1) && NoDelim(t2) ==> Passes(a + p + t1 + b, PATTERNS) == Passes(a + p + t2 + b, PATTERNS)
  }

  /** Between `a + p` and `b` the prefix passes make the same text of every token. */
  ghost predicate SameText(a: string, p: string, b: string) {
    forall t1, t2 :: SameTextFor(a, p, b, t1, t2)
  }

  ghost predicate HiddenFor(a: string, p: string, b: string, t1: string, t2: string) {
    NoDelim(t1) && NoDelim(t2) ==> Redact(a + p + t1 + b) == Redact(a + p + t2 + b)
  }

  /** Between `a + p` and `b` every token gives the same output. */
  ghost predicate Hidden(a: string, p: string, b: string) {
    forall t1, t2 :: HiddenFor(a, p, b, t1, t2)
  }

  /** The scans for `sk-` and for `Bearer ` arrive behind `a` outside of a token, so the text
      behind it is read. */
  ghost predicate Reached(a: string) {
    !Open(a, SK) && !Open(Pass(a, SK), BEAR)
  }

  lemma SkHides(a: string, t1: string, t2: string, b: string)
    requires NoDelim(t1) && NoDelim(t2) && Boundary(b)
    ensures forall q :: q in PATTERNS ==> q.prefix != ""
    ensures Passes(a + SK.prefix + t1 + b, PATTERNS) == Passes(a + SK.prefix + t2 + b, PATTERNS)
  {
    AllPasses(a + SK.prefix + t1 + b);
    AllPasses(a + SK.prefix + t2 + b);
    FirstTwo();
    var same, r := PassHides(Split(a, t1, t2, b), SK.prefix, SK);
  }

  lemma InPatterns(q: Pattern)
    requires q in PATTERNS && q.prefix != BEARER
    ensures q == SK || (q in LATER_PATTERNS && Later(q.prefix))
  {
    assert q in [SK, BEAR] + LATER_PATTERNS by { FirstTwo(); }
    OneOfThree(SK, BEAR, LATER_PATTERNS, q);
    if q in LATER_PATTERNS {
      LaterShapes(q);
    }
  }

  lemma OneOfThree(x: Pattern, y: Pattern, ps: seq<Pattern>, q: Pattern)
    requires q in [x, y] + ps
    ensures q == x || q == y || q in ps
  {
  }

  const WITH_BIT := "Bearer"

  lemma NoBit(t: string)
    requires |t| < 6
    ensures !Bit(t)
  {
  }

  lemma HasBit(t: string)
    requires t == WITH_BIT
    ensures NoDelim(t) && Bit(t)
  {
    assert t[0..] == t;
    IndexIsFirst(t, SK.prefix);
    var i := Index(t, SK.prefix);
    if i >= 0 {
      OccursChar(t, SK.prefix, i, 0);
    }
  }

  lemma TextHiddenBy(a: string, q: Pattern, b: string)
    requires q in LATER_PATTERNS && Later(q.prefix) && Boundary(b)
    ensures forall p :: p in LATER_PATTERNS ==> p.prefix != ""
    ensures SameText(a, q.prefix, b) <==> Outcome(a, q.prefix, b, true) == Outcome(a, q.prefix, b, false)
  {
    LaterArePlain();
    var p, t := q.prefix, WITH_BIT;
    if Outcome(a, p, b, true) == Outcome(a, p, b, false) {
      forall t1, t2 ensures SameTextFor(a, p, b, t1, t2) {
        if NoDelim(t1) && NoDelim(t2) {
          TokenLeavesOneBit(a, q, t1, b);
          TokenLeavesOneBit(a, q, t2, b);
        }
      }
    } else {
      HasBit(t);
      NoBit("");
      TokenLeavesOneBit(a, q, t, b);
      TokenLeavesOneBit(a, q, "", b);
      assert !SameTextFor(a, p, b, t, "");
    }
  }

  lemma OutcomesDiffer(a: string, p: string, b: string)
    requires Boundary(b)
    ensures forall q :: q in LATER_PATTERNS ==> q.prefix != ""
    ensures Outcome(a, p, b, true) != Outcome(a, p, b, false) <==> Reached(a) && Exposed(b)
  {
    TailsDiffer(b);
    if Reached(a) {
      var f := Passes(Pass(Pass(a, SK), BEAR) + p, LATER_PATTERNS);
      CancelLeft(f, Passes(Tail(Pass(b, SK), true), LATER_PATTERNS), Passes(Tail(Pass(b, SK), false), LATER_PATTERNS));
    }
  }

  lemma CancelLeft(f: string, x: string, y: string)
    ensures f + x == f + y <==> x == y
  {
    assert (f + x)[|f|..] == x && (f + y)[|f|..] == y;
  }

  /** The text that the prefix passes leave does not depend on the token, except when the text
      before it leaves no `sk-` or `Bearer ` token open and a space and a word other than the
      marker stand behind it. Then a token that ends in `Bearer` takes that word with it. */
  lemma TextHiddenExactly(a: string, q: Pattern, b: string)
    requires q in PATTERNS && q.prefix != BEARER && Boundary(b)
    ensures SameText(a, q.prefix, b) <==> q == SK || !(Reached(a) && Exposed(b))
  {
    InPatterns(q);
    if q == SK {
      forall t1, t2 ensures SameTextFor(a, q.prefix, b, t1, t2) {
        if NoDelim(t1) && NoDelim(t2) {
          SkHides(a, t1, t2, b);
        }
      }
    } else {
      TextHiddenBy(a, q, b);
      OutcomesDiffer(a, q.prefix, b);
      SkIsNotLater(q);
    }
  }

  /** Token by token: two tokens behind a later prefix give the same text if and only if their
      bits agree or the bit does not show. */
  lemma TokensTellExactly(a: string, q: Pattern, t1: string, t2: string, b: string)
    requires q in LATER_PATTERNS && NoDelim(t1) && NoDelim(t2) && Boundary(b)
    ensures forall p :: p in PATTERNS ==> p.prefix != ""
    ensures Passes(a + q.prefix + t1 + b, PATTERNS) == Passes(a + q.prefix + t2 + b, PATTERNS)
            <==> Bit(t1) == Bit(t2) || !(Reached(a) && Exposed(b))
  {
    LaterShapes(q);
    TokenLeavesOneBit(a, q, t1, b);
    TokenLeavesOneBit(a, q, t2, b);
    OutcomesDiffer(a, q.prefix, b);
  }

  lemma SkIsNotLater(q: Pattern)
    requires Later(q.prefix)
    ensures q != SK
  {
    var p := SK.prefix;
    assert p[2] == '-' && p[1] == 'k';
  }

  /** The same of the output, unless the URL pass then replaces the difference as well. */
  lemma SecretsHiddenExactly(a: string, q: Pattern, b: string)
    requires q in PATTERNS && q.prefix != BEARER && Boundary(b)
    ensures forall p :: p in LATER_PATTERNS ==> p.prefix != ""
    ensures Hidden(a, q.prefix, b)
            <==> q == SK || !(Reached(a) && Exposed(b))
                 || UrlSteps(Outcome(a, q.prefix, b, true), SCHEMES) == UrlSteps(Outcome(a, q.prefix, b, false), SCHEMES)
  {
    LaterArePlain();
    InPatterns(q);
    if q == SK {
      forall t1, t2 ensures HiddenFor(a, q.prefix, b, t1, t2) {
        if NoDelim(t1) && NoDelim(t2) {
          SkHides(a, t1, t2, b);
        }
      }
    } else {
      OutcomesDiffer(a, q.prefix, b);
      HiddenByBit(a, q, b);
    }
  }

  /** Redaction as a function of the surroundings and the one bit of the token. */
  lemma RedactByBit(a: string, q: Pattern, t: string, b: string)
    requires q in LATER_PATTERNS && Later(q.prefix) && NoDelim(t) && Boundary(b)
    ensures forall p :: p in LATER_PATTERNS ==> p.prefix != ""
    ensures Redact(a + q.prefix + t + b) == UrlSteps(Outcome(a, q.prefix, b, Bit(t)), SCHEMES)
  {
    TokenLeavesOneBit(a, q, t, b);
  }

  lemma HiddenByBit(a: string, q: Pattern, b: string)
    requires q in LATER_PATTERNS && Later(q.prefix) && Boundary(b)
    ensures forall p :: p in LATER_PATTERNS ==> p.prefix != ""
    ensures Hidden(a, q.prefix, b)
            <==> UrlSteps(Outcome(a, q.prefix, b, true), SCHEMES) == UrlSteps(Outcome(a, q.prefix, b, false), SCHEMES)
  {
    LaterArePlain();
    var p, t := q.prefix, WITH_BIT;
    if UrlSteps(Outcome(a, p, b, true), SCHEMES) == UrlSteps(Outcome(a, p, b, false), SCHEMES) {
      forall t1, t2 ensures HiddenFor(a, p, b, t1, t2) {
        if NoDelim(t1) && NoDelim(t2) {
          RedactByBit(a, q, t1, b);
          RedactByBit(a, q, t2, b);
        }
      }
    } else {
      HasBit(t);
      NoBit("");
      RedactByBit(a, q, t, b);
      RedactByBit(a, q, "", b);
      assert !HiddenFor(a, p, b, t, "");
    }
  }

  lemma OutcomeHasNoAts(a: string, q: Pattern, b: string, t: string)
    requires q in LATER_PATTERNS && Later(q.prefix) && NoDelim(t) && Boundary(b)
    requires Ats(a) == 0 && Ats(b) == 0 && Ats(t) == 0
    ensures forall p :: p in LATER_PATTERNS ==> p.prefix != ""
    ensures Ats(Outcome(a, q.prefix, b, Bit(t))) == 0
  {
    assert Ats(a + q.prefix + t + b) == 0 by {
      LaterPrefix(q);
      NoAts(q.prefix);
      AtsAppend(a + q.prefix + t, b);
      AtsThree(a, q.prefix, t);
    }
    TokenLeavesOneBit(a, q, t, b);
    AllPassesAddNoAts(a + q.prefix + t + b);
  }

  lemma AllPassesAddNoAts(s: string)
    ensures forall p :: p in PATTERNS ==> p.prefix != ""
    ensures Ats(Passes(s, PATTERNS)) <= Ats(s)
  {
    forall p | p in PATTERNS ensures p.prefix != "" && Listed(p) {
      PatternListed(p);
    }
    PassesAddNoAts(s, PATTERNS);
  }

  /** Where no `@` stands in the surroundings, there is no password either, and a token behind a
      prefix other than `sk-` and `Bearer ` shows in the output if and only if the text is read
      there and exposed behind. */
  lemma SecretsHiddenWithoutUrls(a: string, q: Pattern, b: string)
    requires q in PATTERNS && q.prefix != BEARER && Boundary(b) && Ats(a) == 0 && Ats(b) == 0
    ensures Hidden(a, q.prefix, b) <==> q == SK || !(Reached(a) && Exposed(b))
  {
    SecretsHiddenExactly(a, q, b);
    InPatterns(q);
    if q in LATER_PATTERNS && Later(q.prefix) {
      OutcomeIsFinal(a, q, b);
      OutcomesDiffer(a, q.prefix, b);
    }
  }

  lemma OutcomeIsFinal(a: string, q: Pattern, b: string)
    requires q in LATER_PATTERNS && Later(q.prefix) && Boundary(b) && Ats(a) == 0 && Ats(b) == 0
    ensures forall p :: p in LATER_PATTERNS ==> p.prefix != ""
    ensures UrlSteps(Outcome(a, q.prefix, b, true), SCHEMES) == Outcome(a, q.prefix, b, true)
    ensures UrlSteps(Outcome(a, q.prefix, b, false), SCHEMES) == Outcome(a, q.prefix, b, false)
  {
    var t := WITH_BIT;
    NoAts(t);
    HasBit(t);
    NoBit("");
    FinalByBit(a, q, b, t, true);
    FinalByBit(a, q, b, "", false);
  }

  lemma FinalByBit(a: string, q: Pattern, b: string, t: string, bit: bool)
    requires q in LATER_PATTERNS && Later(q.prefix) && Boundary(b) && Ats(a) == 0 && Ats(b) == 0
    requires NoDelim(t) && Ats(t) == 0 && Bit(t) == bit
    ensures forall p :: p in LATER_PATTERNS ==> p.prefix != ""
    ensures UrlSteps(Outcome(a, q.prefix, b, bit), SCHEMES) == Outcome(a, q.prefix, b, bit)
  {
    OutcomeHasNoAts(a, q, b, t);
    UrlStepsIdle(Outcome(a, q.prefix, b, bit), SCHEMES);
  }

  // ----- words that no pattern touches -----

  /** A single byte that is not a delimiter: shorter than every prefix. */
  lemma ByteStays(t: string, q: Pattern)
    requires |t| == 1 && q.prefix != "" && |q.prefix| > 1
    ensures Pass(t, q) == t
  {
  }

  lemma {:induction false} ByteStaysThrough(t: string, ps: seq<Pattern>)
    requires |t| == 1 && forall q :: q in ps ==> q.prefix != "" && |q.prefix| > 1
    ensures Passes(t, ps) == t
    decreases ps
  {
    if ps != [] {
      ByteStays(t, ps[0]);
      ByteStaysThrough(t, ps[1..]);
    }
  }

  lemma LaterAreLong()
    ensures forall q :: q in LATER_PATTERNS ==> q.prefix != "" && |q.prefix| > 1
  {
    forall q | q in LATER_PATTERNS ensures q.prefix != "" && |q.prefix| > 1 {
      LaterPrefix(q);
    }
  }

  /** A space, a byte and what follows, behind any text, through the later patterns. */
  lemma ByteInSight(y: string, t: string, c: string)
    requires |t| == 1 && NoDelim(t) && Boundary(c)
    ensures forall q :: q in LATER_PATTERNS ==> q.prefix != ""
    ensures Passes(y + (" " + t + c), LATER_PATTERNS) == Passes(y, LATER_PATTERNS) + (" " + t + Passes(c, LATER_PATTERNS))
  {
    LaterArePlain();
    LaterAreLong();
    PassesConcat(y, " " + t + c, LATER_PATTERNS);
    SpacedPasses(t, c, LATER_PATTERNS);
    ByteStaysThrough(t, LATER_PATTERNS);
  }

  lemma AtsOfSight(f: string, t: string, c: string)
    requires |t| == 1
    ensures Ats(f + (" " + t + c)) == Ats(f) + Ats(t) + Ats(c)
  {
    AtsAppend(f, " " + t + c);
    AtsThree(" ", t, c);
  }

  // ----- a token in front of anything -----

  /** A word and nothing behind it. */
  lemma LoneWord(w: string, m: string)
    requires NoDelim(w) && |w| == 1 && m == MARK
    ensures forall q :: q in LATER_PATTERNS ==> q.prefix != ""
    ensures Passes(" " + m, LATER_PATTERNS) == " " + m && Passes(" " + w, LATER_PATTERNS) == " " + w
  {
    LaterArePlain();
    LaterAreLong();
    MarkIsWord(m);
    DelimStays(' ', m, LATER_PATTERNS);
    DelimStays(' ', w, LATER_PATTERNS);
    TokenPasses(m, LATER_PATTERNS);
    ByteStaysThrough(w, LATER_PATTERNS);
    assert [' '] + m == " " + m && [' '] + w == " " + w;
  }

  lemma LoneTails(w: string, m: string)
    requires NoDelim(w) && |w| == 1 && m == MARK
    ensures Tail(Pass(" " + w, SK), true) == " " + m && Tail(Pass(" " + w, SK), false) == " " + w
  {
    SpacedByte(w);
    LoneTailsOf(w, m, "");
  }

  lemma SpacedByte(w: string)
    requires |w| == 1
    ensures Pass(" " + w, SK) == " " + w
  {
    assert [' '] + w == " " + w;
    assert Pass([' '] + w, SK) == [' '] + Pass(w, SK) by {
      FirstTwo();
      DelimFirst(' ', w, SK);
    }
    ByteStays(w, SK);
  }

  lemma LoneTailsOf(w: string, m: string, none: string)
    requires NoDelim(w) && |w| == 1 && m == MARK && none == ""
    ensures Tail(" " + w, true) == " " + m && Tail(" " + w, false) == " " + w
  {
    PassEmpty(BEAR);
    assert " " + w + none == " " + w && " " + m + none == " " + m;
    TailTaken(w, none);
    TailLeft(w, none);
    assert Tail(none, EndsInBearer(w)) == none;
  }

  lemma TailsOfAt(b: string)
    requires b == " @"
    ensures forall q :: q in LATER_PATTERNS ==> q.prefix != ""
    ensures Ats(Passes(Tail(Pass(b, SK), true), LATER_PATTERNS)) == 0
    ensures Ats(Passes(Tail(Pass(b, SK), false), LATER_PATTERNS)) == 1
  {
    var w, mark := "@", MARK;
    assert b == " " + w;
    LoneTails(w, mark);
    LoneWord(w, mark);
    MarkHasNoAts(mark);
    AtsAppend(" ", mark);
    AtsAppend(" ", w);
    AtsOne(w);
  }

  /** Whatever follows, a token behind a prefix other than `Bearer ` is hidden if and only if the
      prefix is `sk-` or the text in front leaves an `sk-` or `Bearer ` token open. */
  lemma SecretsHiddenWhateverFollows(a: string, q: Pattern)
    requires q in PATTERNS && q.prefix != BEARER
    ensures (forall b :: Boundary(b) ==> Hidden(a, q.prefix, b)) <==> q == SK || !Reached(a)
  {
    if q == SK || !Reached(a) {
      forall b | Boundary(b) ensures Hidden(a, q.prefix, b) {
        SecretsHiddenExactly(a, q, b);
      }
    } else {
      InPatterns(q);
      AtTells(a, q, " @");
    }
  }

  lemma AtTells(a: string, q: Pattern, b: string)
    requires q in LATER_PATTERNS && Later(q.prefix) && Reached(a) && b == " @"
    ensures !Hidden(a, q.prefix, b)
  {
    LaterArePlain();
    TailsOfAt(b);
    var o1, o2 := Outcome(a, q.prefix, b, true), Outcome(a, q.prefix, b, false);
    var f := Passes(Pass(Pass(a, SK), BEAR) + q.prefix, LATER_PATTERNS);
    AtsAppend(f, Passes(Tail(Pass(b, SK), true), LATER_PATTERNS));
    AtsAppend(f, Passes(Tail(Pass(b, SK), false), LATER_PATTERNS));
    UrlStepsKeepAts(o1, SCHEMES);
    UrlStepsKeepAts(o2, SCHEMES);
    HiddenByBit(a, q, b);
  }

  // ----- tokens behind `Bearer ` -----

  lemma NoSkInBearer(y: string)
    ensures Pass(BEARER + y, SK) == BEARER + Pass(y, SK)
  {
    var bearer := BEARER;
    forall k | 0 <= k < |bearer| ensures !OccursAt(bearer + y, SK.prefix, k) {
      if OccursAt(bearer + y, SK.prefix, k) {
        assert (bearer + y)[k] == bearer[k];
        OccursChar(bearer + y, SK.prefix, k, 0);
      }
    }
    PassSkip(bearer, y, SK);
  }

  /** The `sk-` pass at `Bearer `. */
  lemma SkAtBearer(a: string, t: string, b: string)
    requires NoDelim(t) && Boundary(b)
    ensures Pass(a + BEARER + t + b, SK)
         == Pass(a, SK) + if Open(a, SK) then " " + Pass(t, SK) + Pass(b, SK) else BEARER + Pass(t, SK) + Pass(b, SK)
  {
    FirstTwo();
    var bearer := BEARER;
    var y := bearer + t + b;
    Regrouped(a, bearer, t, b);
    assert y[0] == 'B';
    NoStraddleSk(a, y);
    PassConcat(a, y, SK);
    if Open(a, SK) {
      OpenTakesBearer(t + b);
      Assoc3(bearer, t, b);
      Assoc3(" ", t, b);
      Spaced(t, b, SK);
    } else {
      Assoc3(bearer, t, b);
      NoSkInBearer(t + b);
      BoundaryConcat(t, b, SK);
      Assoc3(bearer, Pass(t, SK), Pass(b, SK));
    }
  }

  /** A token that is open in front of `Bearer ` ends at its space. */
  lemma OpenTakesBearer(y: string)
    ensures (BEARER + y)[TokenEnd(BEARER + y, 0)..] == " " + y
  {
    var w := "Bearer";
    assert BEARER + y == w + (" " + y) by { assert BEARER == w + " "; Assoc3(w, " ", y); }
    TokenEndBoundary(w, " " + y);
  }

  lemma {:induction false} OpenEndsMarked(a: string, q: Pattern)
    requires Listed(q) && Open(a, q)
    ensures Pass(a, q) != "" && Pass(a, q)[|Pass(a, q)| - 1] == ']'
    decreases |a|
  {
    var i := Index(a, q.prefix);
    var e := TokenEnd(a, i + |q.prefix|);
    if e == |a| {
      PassOpenEnd(a, q, i);
      EndsLike(a[..i], q.replacement);
      ReplacementShape(q);
    } else {
      OpenEndsMarked(a[e..], q);
      assert Pass(a, q) == a[..i] + q.replacement + Pass(a[e..], q) by { PassAt(a, q, i, e, a[..i], a[e..]); }
      EndsLike(a[..i] + q.replacement, Pass(a[e..], q));
    }
  }

  lemma EndsLike(x: string, y: string)
    requires y != ""
    ensures x + y != "" && (x + y)[|x + y| - 1] == y[|y| - 1]
  {
  }

  lemma SpacedBearer(t: string, b: string)
    requires |t| == 1 && NoDelim(t) && Boundary(b)
    ensures Pass(" " + t + b, BEAR) == " " + t + Pass(b, BEAR)
  {
    FirstTwo();
    Assoc3(" ", t, b);
    assert [' '] + (t + b) == " " + (t + b);
    DelimFirst(' ', t + b, BEAR);
    WordThen(t, b);
    Assoc3(" ", t, Pass(b, BEAR));
  }

  /** If the text is not read there, a byte behind `Bearer ` is still in sight after both passes. */
  lemma BearerMissed(a: string, t: string, b: string)
    requires |t| == 1 && NoDelim(t) && Boundary(b) && !Reached(a)
    ensures Pass(Pass(a + BEARER + t + b, SK), BEAR)
         == Pass(Pass(a, SK), BEAR) + (" " + t + Pass(Pass(b, SK), BEAR))
  {
    var x, b1 := Pass(a, SK), Pass(b, SK);
    SkAtBearer(a, t, b);
    ByteStays(t, SK);
    assert Boundary(b1) by { FirstTwo(); PassBoundary(b, SK); }
    SpacedBearer(t, b1);
    if Open(a, SK) {
      assert x != "" && x[|x| - 1] == ']' by { FirstTwo(); OpenEndsMarked(a, SK); }
      SpaceBehind(x, " " + t + b1);
    } else {
      BearerBehind(x, t, b1);
    }
  }

  lemma SpaceBehind(x: string, y: string)
    requires x != "" && x[|x| - 1] == ']' && y != "" && y[0] == ' '
    ensures Pass(x + y, BEAR) == Pass(x, BEAR) + Pass(y, BEAR)
  {
    var none := "";
    NoStraddleBearer(x, y);
    PassConcat(x, y, BEAR);
    TokenEndBoundary(none, y);
    assert none + y == y;
  }

  lemma BearerBehind(x: string, t: string, b: string)
    requires Open(x, BEAR)
    ensures Pass(x + (BEARER + t + b), BEAR) == Pass(x, BEAR) + Pass(" " + t + b, BEAR)
  {
    var y := BEARER + t + b;
    assert y[0] == 'B';
    NoStraddleBearer(x, y);
    PassConcat(x, y, BEAR);
    Assoc3(BEARER, t, b);
    OpenTakesBearer(t + b);
    Assoc3(" ", t, b);
  }

  /** If the text is read there, the token is gone after both passes. */
  lemma BearerTaken(a: string, t: string, b: string)
    requires NoDelim(t) && Boundary(b) && Reached(a)
    ensures Pass(Pass(a + BEARER + t + b, SK), BEAR)
         == Pass(Pass(a, SK), BEAR) + (BEARER + MARK + Pass(Pass(b, SK), BEAR))
  {
    var x, u, b1 := Pass(a, SK), Pass(t, SK), Pass(b, SK);
    SkAtBearer(a, t, b);
    FirstTwo();
    TokenPass(t, SK);
    PassBoundary(b, SK);
    var y := BEARER + u + b1;
    assert y[0] == 'B';
    NoStraddleBearer(x, y);
    PassConcat(x, y, BEAR);
    BearerInFront(u, b1);
  }

  lemma BearerInFront(u: string, b: string)
    requires NoDelim(u) && Boundary(b)
    ensures Pass(BEARER + u + b, BEAR) == BEARER + MARK + Pass(b, BEAR)
  {
    var w, bearer := "", BEARER;
    Assoc3(bearer, u, b);
    var s := bearer + (u + b);
    assert Index(s, bearer) == 0 by {
      assert s[0..|bearer|] == bearer;
      IndexUnique(s, bearer, 0);
    }
    assert TokenEnd(s, |bearer|) == |bearer| + |u| by {
      TokenEndBoundary(u, b);
      TokenEndShift(bearer, u + b, 0);
    }
    assert s[..0] == "" && s[|bearer| + |u|..] == b by { assert s == bearer + u + b; }
    PassAt(s, BEAR, 0, |bearer| + |u|, "", b);
    assert "" + (bearer + MARK) == bearer + MARK;
  }

  /** When the text in front leaves a token open, the byte behind `Bearer ` shows in the output. */
  lemma BearerShows(a: string, b: string)
    requires Boundary(b) && !Reached(a)
    ensures Redact(a + BEARER + "x" + b) != Redact(a + BEARER + "@" + b)
  {
    BytesTell(a, b, "x", "@");
  }

  lemma BytesTell(a: string, b: string, t1: string, t2: string)
    requires Boundary(b) && !Reached(a) && t1 == "x" && t2 == "@"
    ensures NoDelim(t1) && NoDelim(t2) && Redact(a + BEARER + t1 + b) != Redact(a + BEARER + t2 + b)
  {
    AtsOne(t1);
    AtsOne(t2);
    TwiceBoundary(b);
    BytesCount(a, b, t1, t2, Pass(Pass(a, SK), BEAR), Pass(Pass(b, SK), BEAR));
  }

  lemma BytesCount(a: string, b: string, t1: string, t2: string, y: string, c: string)
    requires |t1| == |t2| == 1 && NoDelim(t1) && NoDelim(t2) && Boundary(b) && Boundary(c) && !Reached(a)
    requires y == Pass(Pass(a, SK), BEAR) && c == Pass(Pass(b, SK), BEAR) && Ats(t1) != Ats(t2)
    ensures Redact(a + BEARER + t1 + b) != Redact(a + BEARER + t2 + b)
  {
    BearerAts(a, t1, b, y, c);
    BearerAts(a, t2, b, y, c);
  }

  lemma TwiceBoundary(b: string)
    requires Boundary(b)
    ensures Boundary(Pass(Pass(b, SK), BEAR))
  {
    FirstTwo();
    PassBoundary(b, SK);
    PassBoundary(Pass(b, SK), BEAR);
  }

  lemma BearerAts(a: string, t: string, b: string, y: string, c: string)
    requires |t| == 1 && NoDelim(t) && Boundary(b) && Boundary(c) && !Reached(a)
    requires y == Pass(Pass(a, SK), BEAR) && c == Pass(Pass(b, SK), BEAR)
    ensures forall q :: q in LATER_PATTERNS ==> q.prefix != ""
    ensures Ats(Redact(a + BEARER + t + b)) == Ats(Passes(y, LATER_PATTERNS)) + Ats(t) + Ats(Passes(c, LATER_PATTERNS))
  {
    LaterArePlain();
    AllPasses(a + BEARER + t + b);
    BearerMissed(a, t, b);
    ByteInSight(y, t, c);
    AtsOfSight(Passes(y, LATER_PATTERNS), t, Passes(c, LATER_PATTERNS));
    UrlStepsKeepAts(Passes(a + BEARER + t + b, PATTERNS), SCHEMES);
  }

  /** The output hides the token behind `Bearer `, whatever it is and whatever stands behind it, if
      and only if the text in front leaves neither an `sk-` token nor a `Bearer ` token open. */
  lemma BearerHidesExactly(a: string, b: string)
    requires Boundary(b)
    ensures Hidden(a, BEARER, b) <==> Reached(a)
  {
    if Reached(a) {
      forall t1, t2 ensures HiddenFor(a, BEARER, b, t1, t2) {
        if NoDelim(t1) && NoDelim(t2) {
          AllPasses(a + BEARER + t1 + b);
          AllPasses(a + BEARER + t2 + b);
          BearerTaken(a, t1, b);
          BearerTaken(a, t2, b);
        }
      }
    } else {
      var t1, t2 := "x", "@";
      BytesTell(a, b, t1, t2);
      assert !HiddenFor(a, BEARER, b, t1, t2);
    }
  }

  // ----- inputs at which a token shows -----

  lemma Doubled()
    ensures Open(BEARER, BEAR)
  {
    var bearer := BEARER;
    assert bearer[0..|bearer|] == bearer;
    IndexUnique(bearer, bearer, 0);
  }

  lemma BearerIsFixedBySk()
    ensures Pass(BEARER, SK) == BEARER
  {
    var none := "";
    NoSkInBearer(none);
    PassEmpty(SK);
    assert BEARER + none == BEARER;
  }

  lemma SpellTwice(t: string)
    requires t == "x" || t == "@"
    ensures BEARER + BEARER + t + "" == "Bearer Bearer " + t
  {
  }

  lemma SpellKey(t: string)
    requires t == "x" || t == "@"
    ensures "sk-a" + BEARER + t + "" == "sk-aBearer " + t
  {
  }

  /** `Bearer Bearer x`: the last byte shows. */
  lemma TwiceShows()
    ensures Redact("Bearer Bearer " + "x") != Redact("Bearer Bearer " + "@")
  {
    assert !Reached(BEARER) by {
      Doubled();
      BearerIsFixedBySk();
    }
    BearerShows(BEARER, "");
    SpellTwice("x");
    SpellTwice("@");
  }

  /** `sk-aBearer x`: the last byte shows. */
  lemma KeyShows()
    ensures Redact("sk-aBearer " + "x") != Redact("sk-aBearer " + "@")
  {
    assert !Reached("sk-a") by { SkLeftOpen("sk-a"); }
    BearerShows("sk-a", "");
    SpellKey("x");
    SpellKey("@");
  }

  lemma SkLeftOpen(a: string)
    requires a == "sk-a"
    ensures Open(a, SK)
  {
    assert a[0..3] == SK.prefix;
    IndexUnique(a, SK.prefix, 0);
    assert a[4..] == "";
    TokenEndIs(a, 3, 4);
  }

  lemma TokenIsLater(q: Pattern)
    requires q == Keeping("token=")
    ensures q in LATER_PATTERNS && Later(q.prefix)
  {
    assert q in TOKEN_PATTERNS;
    assert q in LATER_PATTERNS;
    LaterShapes(q);
  }

  /** `token=Bearer y` and `token=x y`: in the first the word behind the token is taken as well. */
  lemma TokenInputs()
    ensures Redact("token=" + "Bearer" + " y") != Redact("token=" + "x" + " y")
  {
    var q := Keeping("token=");
    TokenIsLater(q);
    HasBit(WITH_BIT);
    NoBit("x");
    TokenShows(q, WITH_BIT, "x", " y");
    EmptyFront(q.prefix);
  }

  lemma EmptyFront(p: string)
    ensures "" + p == p
  {
  }

  lemma TokenShows(q: Pattern, t1: string, t2: string, b: string)
    requires q in LATER_PATTERNS && Later(q.prefix) && NoDelim(t1) && NoDelim(t2) && Bit(t1) && !Bit(t2) && b == " y"
    ensures Redact("" + q.prefix + t1 + b) != Redact("" + q.prefix + t2 + b)
  {
    var none := "";
    assert Boundary(b) && Ats(b) == 0 by { NoAts(b); }
    RedactByBit(none, q, t1, b);
    RedactByBit(none, q, t2, b);
    OutcomeIsFinal(none, q, b);
    ExposedWord(b);
    ReachedAtStart(none);
    OutcomesDiffer(none, q.prefix, b);
  }

  lemma ExposedWord(b: string)
    requires b == " y"
    ensures Exposed(b)
  {
    assert b[2..] == "";
    TokenEndIs(b, 1, 2);
    assert |b[1..2]| < |MARK|;
  }

  lemma ReachedAtStart(a: string)
    requires a == ""
    ensures Reached(a)
  {
    PassEmpty(SK);
  }
}
