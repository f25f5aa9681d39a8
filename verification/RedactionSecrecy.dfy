/** What the prefix passes conserve, and how a pass hides the token behind its prefix: two texts
    that differ only in that token become the same. */
module RedactionSecrecy {
  import opened Text
  import opened Redaction
  import opened RedactionSafety

  // ----- conservation: the delimiters survive, in order -----

  function DelimOf(c: char): string {
    if IsDelim(c) then [c] else ""
  }

  function Delims(s: string): string {
    if s == "" then "" else DelimOf(s[0]) + Delims(s[1..])
  }

  lemma DelimsCons(s: string, c: char, rest: string)
    requires s != "" && s[0] == c && s[1..] == rest
    ensures Delims(s) == DelimOf(c) + Delims(rest)
  {
  }

  lemma {:induction false} DelimsAppend(x: string, y: string)
    ensures Delims(x + y) == Delims(x) + Delims(y)
    decreases |x|
  {
    if x == "" {
      assert x + y == y;
    } else {
      var tail := x[1..];
      assert Delims(tail + y) == Delims(tail) + Delims(y) by { DelimsAppend(tail, y); }
      assert (x + y)[1..] == tail + y;
      DelimsCons(x + y, x[0], tail + y);
      DelimsCons(x, x[0], tail);
      Assoc3(DelimOf(x[0]), Delims(tail), Delims(y));
    }
  }

  lemma {:induction false} NoDelims(s: string)
    requires NoDelim(s)
    ensures Delims(s) == ""
    decreases |s|
  {
    if s != "" {
      NoDelims(s[1..]);
    }
  }

  lemma MarkHasNoDelims(m: string)
    requires m == MARK
    ensures Delims(m) == ""
  {
    forall k | 0 <= k < |m| ensures !IsDelim(m[k]) { MarkChar(k); }
    NoDelims(m);
  }

  lemma AwsMarkHasNoDelims(m: string)
    requires m == AWS_MARK || m == AWS_PREFIX
    ensures Delims(m) == ""
  {
    forall k | 0 <= k < |m| ensures !IsDelim(m[k]) {
      if m == AWS_MARK { AwsMarkChar(k); }
    }
    NoDelims(m);
  }

  lemma DelimsOfReplacement(p: Pattern)
    requires Keeps(p) || p == Pattern(AWS_PREFIX, AWS_MARK)
    ensures Delims(p.replacement) == Delims(p.prefix)
  {
    if Keeps(p) {
      var mark := MARK;
      MarkHasNoDelims(mark);
      DelimsAppend(p.prefix, mark);
    } else {
      AwsMarkHasNoDelims(p.replacement);
      AwsMarkHasNoDelims(p.prefix);
    }
  }

  lemma DelimsOfFour(x: string, y: string, t: string, z: string)
    requires NoDelim(t)
    ensures Delims(x + (y + (t + z))) == Delims(x) + Delims(y) + Delims(z)
  {
    NoDelims(t);
    DelimsAppend(t, z);
    DelimsAppend(y, t + z);
    DelimsAppend(x, y + (t + z));
    DropEmpty(Delims(x), Delims(y), Delims(z));
  }

  lemma DropEmpty(x: string, y: string, z: string)
    ensures x + (y + ("" + z)) == x + y + z
  {
  }

  lemma FourPieces(s: string, i: nat, m: nat, e: nat)
    requires i <= m <= e <= |s|
    ensures s == s[..i] + (s[i..m] + (s[m..e] + s[e..]))
  {
    assert s[m..] == s[m..e] + s[e..];
    assert s[i..] == s[i..m] + s[m..];
  }

  lemma DelimsOfPieces(s: string, i: nat, m: nat, e: nat)
    requires i <= m <= e <= |s| && forall k :: m <= k < e ==> !IsDelim(s[k])
    ensures Delims(s) == Delims(s[..i]) + Delims(s[i..m]) + Delims(s[e..])
  {
    FourPieces(s, i, m, e);
    DelimsOfFour(s[..i], s[i..m], s[m..e], s[e..]);
  }

  /** A pass rewrites inside words only: the delimiters of the text are the same, in the
      same order, before and after. */
  lemma {:induction false} PassKeepsDelims(s: string, p: Pattern)
    requires Listed(p)
    ensures Delims(Pass(s, p)) == Delims(s)
    decreases |s|
  {
    var i := Index(s, p.prefix);
    if i >= 0 {
      var m := i + |p.prefix|;
      var e := TokenEnd(s, m);
      var rest := Pass(s[e..], p);
      assert Pass(s, p) == s[..i] + p.replacement + rest by {
        PassAt(s, p, i, e, s[..i], s[e..]);
      }
      assert Delims(rest) == Delims(s[e..]) by {
        PassKeepsDelims(s[e..], p);
      }
      assert Delims(s) == Delims(s[..i]) + Delims(p.prefix) + Delims(s[e..]) by {
        IndexIsFirst(s, p.prefix);
        TokenEndSpec(s, m);
        DelimsOfPieces(s, i, m, e);
      }
      DelimsOfReplacement(p);
      DelimsAppend(s[..i] + p.replacement, rest);
      DelimsAppend(s[..i], p.replacement);
    }
  }

  lemma {:induction false} PassesKeepDelims(s: string, ps: seq<Pattern>)
    requires forall p :: p in ps ==> p.prefix != "" && Listed(p)
    ensures Delims(Passes(s, ps)) == Delims(s)
    decreases ps
  {
    if ps != [] {
      PassKeepsDelims(s, ps[0]);
      PassesKeepDelims(Pass(s, ps[0]), ps[1..]);
    }
  }

  // ----- secrecy -----

  const BEARER := "Bearer "

  /** No listed prefix continues across the end of a hidden prefix. */
  ghost predicate Inner(q: string) {
    && q != ""
    && (forall k :: 0 <= k < |q| - 1 ==> !IsDelim(q[k]) && q[k] != '-' && q[k] != '=')
    && (forall k :: 0 <= k < |q| - 1 && q[k] == '_' ==>
          2 <= k && (q[k - 1] == 'i' || (q[k - 1] == 's' && q[k - 2] == 's')))
    && (forall k :: 0 <= k < |q| - 1 && q[k] == 'A' ==> q == AWS_PREFIX)
    && (IsDelim(q[|q| - 1]) ==> q == BEARER)
  }

  ghost predicate Hides(p: string) {
    && |p| >= 3 && NoDelim(p)
    && (var c := p[|p| - 1];
        c == '-' || c == '='
        || (c == '_' && p[|p| - 2] != 'i' && !(p[|p| - 2] == 's' && p[|p| - 3] == 's'))
        || p == AWS_PREFIX)
  }

  lemma NoCrossing(a: string, p: string, rest: string, q: string, i: int)
    requires Inner(q) && Hides(p) && !(q == p == AWS_PREFIX)
    requires OccursAt(a + p + rest, q, i) && i < |a| + |p|
    ensures i + |q| <= |a| + |p|
  {
    var t, n := a + p + rest, |a| + |p|;
    assert t[n - 1] == p[|p| - 1] && t[n - 2] == p[|p| - 2] && t[n - 3] == p[|p| - 3];
    OccursBack(t, q, i, n - 3);
    OccursBack(t, q, i, n - 2);
    OccursBack(t, q, i, n - 1);
  }

  lemma OccursBack(t: string, q: string, i: int, m: int)
    requires OccursAt(t, q, i)
    ensures i <= m < i + |q| ==> t[m] == q[m - i]
  {
    if i <= m < i + |q| {
      OccursChar(t, q, i, m - i);
    }
  }

  lemma {:induction false} TokenEndShift(x: string, b: string, m: nat)
    requires m <= |b|
    ensures TokenEnd(x + b, |x| + m) == |x| + TokenEnd(b, m)
    decreases |b| - m
  {
    if m < |b| && !IsDelim(b[m]) {
      TokenEndShift(x, b, m + 1);
    }
  }

  lemma {:induction false} TokenEndLeft(a: string, y: string, m: nat)
    requires m <= |a| && TokenEnd(a, m) < |a|
    ensures TokenEnd(a + y, m) == TokenEnd(a, m)
    decreases |a| - m
  {
    if m < |a| && !IsDelim(a[m]) {
      TokenEndLeft(a, y, m + 1);
    }
  }

  lemma IndexLeft(x: string, y: string, q: string)
    requires Index(x, q) >= 0
    ensures Index(x + y, q) == Index(x, q)
  {
    var i := Index(x, q);
    IndexIsFirst(x, q);
    OccursLeft(x, y, q, i);
    forall j | 0 <= j < i ensures !OccursAt(x + y, q, j) {
      OccursLeft(x, y, q, j);
    }
    IndexUnique(x + y, q, i);
  }

  /** Text in which no occurrence starts is copied. */
  lemma PassSkip(x: string, b: string, p: Pattern)
    requires p.prefix != ""
    requires forall k :: 0 <= k < |x| ==> !OccursAt(x + b, p.prefix, k)
    ensures Pass(x + b, p) == x + Pass(b, p)
  {
    IndexShift(x, b, p.prefix);
    if Index(b, p.prefix) >= 0 {
      PassSkipAt(x, b, p, Index(b, p.prefix));
    }
  }

  lemma ShiftSlices(x: string, b: string, i: nat, e: nat)
    requires i <= e <= |b|
    ensures (x + b)[..|x| + i] == x + b[..i] && (x + b)[|x| + e..] == b[e..]
  {
  }

  lemma PassSkipAt(x: string, b: string, p: Pattern, i: nat)
    requires p.prefix != "" && Index(b, p.prefix) == i && Index(x + b, p.prefix) == |x| + i
    ensures Pass(x + b, p) == x + Pass(b, p)
  {
    var e := TokenEnd(b, i + |p.prefix|);
    var head, tail := b[..i], b[e..];
    assert Pass(b, p) == head + p.replacement + Pass(tail, p) by { PassAt(b, p, i, e, head, tail); }
    assert Pass(x + b, p) == x + head + p.replacement + Pass(tail, p) by {
      var j, f := |x| + i, |x| + e;
      assert TokenEnd(x + b, j + |p.prefix|) == f by { TokenEndShift(x, b, i + |p.prefix|); }
      assert (x + b)[..j] == x + head && (x + b)[f..] == tail by { ShiftSlices(x, b, i, e); }
      PassAt(x + b, p, j, f, x + head, tail);
    }
    Assoc(x, head, p.replacement, Pass(tail, p));
  }

  /** A token that opens in `x` and runs on through `t` takes all of `t` with it. */
  lemma PassSwallows(x: string, t: string, b: string, q: Pattern, i: nat)
    requires q.prefix != "" && Index(x, q.prefix) == i
    requires NoDelim(t) && Boundary(b) && forall k :: i + |q.prefix| <= k < |x| ==> !IsDelim(x[k])
    ensures Pass(x + t + b, q) == x[..i] + q.replacement + Pass(b, q)
  {
    var s := x + t + b;
    assert s == x + (t + b);
    IndexLeft(x, t + b, q.prefix);
    assert s[|x + t|..] == b;
    TokenEndIs(s, i + |q.prefix|, |x + t|);
    assert s[..i] == x[..i];
    PassAt(s, q, i, |x + t|, x[..i], b);
  }

  /** A token that opens and ends in `a` leaves what follows to the next turn. */
  lemma PassOpens(a: string, y: string, q: Pattern, i: nat, e: nat)
    requires q.prefix != "" && Index(a, q.prefix) == i && TokenEnd(a, i + |q.prefix|) == e < |a|
    ensures Pass(a + y, q) == a[..i] + q.replacement + Pass(a[e..] + y, q)
  {
    IndexLeft(a, y, q.prefix);
    TokenEndLeft(a, y, i + |q.prefix|);
    assert (a + y)[..i] == a[..i] && (a + y)[e..] == a[e..] + y;
    PassAt(a + y, q, i, e, a[..i], a[e..] + y);
  }

  lemma NoneAcrossEnd(t: string, b: string, q: string, k: int)
    requires NoDelim(q) && Boundary(b) && 0 <= k < |t| < k + |q|
    ensures !OccursAt(t + b, q, k)
  {
    if OccursAt(t + b, q, k) {
      OccursChar(t + b, q, k, |t| - k);
    }
  }

  /** No occurrence starts in `x + t`, given that none lies in either. */
  lemma NoneBefore(a: string, p: string, t: string, b: string, q: string, k: int)
    requires Inner(q) && NoDelim(q) && Hides(p) && !(q == p == AWS_PREFIX) && Boundary(b)
    requires Absent(a + p, q) && 0 <= k < |a + p + t|
    requires k < |a + p| || k + |q| > |a + p + t|
    ensures !OccursAt(a + p + t + b, q, k)
  {
    var x := a + p;
    var s := x + t + b;
    if OccursAt(s, q, k) {
      assert s == a + p + (t + b);
      if k < |x| {
        NoCrossing(a, p, t + b, q, k);
        OccursLeft(x, t + b, q, k);
      } else {
        assert s == x + (t + b);
        OccursRight(x, t + b, q, k);
        NoneAcrossEnd(t, b, q, k - |x|);
      }
    }
  }

  lemma TokenAfterReplacement(t: string, j: nat, q: Pattern)
    requires Listed(q) && NoDelim(t) && OccursAt(t, q.prefix, j)
    ensures NoDelim(t[..j] + q.replacement)
  {
    var u := t[..j] + q.replacement;
    ReplacementShape(q);
    forall k | 0 <= k < |u| ensures !IsDelim(u[k]) {
      if k < j {
        assert u[k] == t[k];
      } else if Keeps(q) && k < j + |q.prefix| {
        OccursChar(t, q.prefix, j, k - j);
      }
    }
  }

  lemma NoneBeforeToken(a: string, p: string, t: string, b: string, q: string, stop: nat)
    requires Inner(q) && NoDelim(q) && Hides(p) && !(q == p == AWS_PREFIX) && Boundary(b)
    requires Absent(a + p, q) && stop <= |t| && forall k :: 0 <= k < stop ==> !OccursAt(t, q, k)
    ensures forall k :: 0 <= k < |a + p| + stop ==> !OccursAt(a + p + t + b, q, k)
  {
    var x := a + p;
    forall k | 0 <= k < |x| + stop ensures !OccursAt(x + t + b, q, k) {
      if k < |x| || k + |q| > |x + t| {
        NoneBefore(a, p, t, b, q, k);
      } else {
        OccursLeft(x + t, b, q, k);
        OccursRight(x, t, q, k);
      }
    }
  }

  lemma PassLastToken(t: string, b: string, q: Pattern, j: nat)
    requires q.prefix != "" && NoDelim(t) && Boundary(b) && Index(t, q.prefix) == j
    ensures Pass(t + b, q) == t[..j] + q.replacement + Pass(b, q)
  {
    var empty := "";
    assert t + empty == t;
    PassSwallows(t, empty, b, q, j);
  }

  lemma PassInToken(x: string, t: string, b: string, q: Pattern, j: nat)
    requires Listed(q) && NoDelim(t) && Boundary(b) && Index(t, q.prefix) == j
    requires forall k :: 0 <= k < |x| ==> !OccursAt(x + t + b, q.prefix, k)
    ensures Pass(x + t + b, q) == x + (t[..j] + q.replacement) + Pass(b, q)
  {
    assert x + t + b == x + (t + b);
    PassSkip(x, t + b, q);
    PassLastToken(t, b, q, j);
    Assoc3(x, t[..j] + q.replacement, Pass(b, q));
  }

  lemma Assoc3(x: string, y: string, z: string)
    ensures x + (y + z) == x + y + z
  {
  }

  /** With no occurrence in front, a pass only turns the token into another token. */
  lemma PassOnToken(a: string, p: string, t: string, b: string, q: Pattern) returns (u: string)
    requires Listed(q) && Inner(q.prefix) && NoDelim(q.prefix) && Hides(p) && !(q.prefix == p == AWS_PREFIX)
    requires NoDelim(t) && Boundary(b) && Absent(a + p, q.prefix)
    ensures NoDelim(u) && Pass(a + p + t + b, q) == a + p + u + Pass(b, q)
  {
    var j := Index(t, q.prefix);
    if j < 0 {
      u := t;
      assert forall k :: 0 <= k < |a + p + t| ==> !OccursAt(a + p + t + b, q.prefix, k) by {
        IndexIsFirst(t, q.prefix);
        NoneBeforeToken(a, p, t, b, q.prefix, |t|);
      }
      PassSkip(a + p + t, b, q);
    } else {
      u := t[..j] + q.replacement;
      assert NoDelim(u) by {
        IndexIsFirst(t, q.prefix);
        TokenAfterReplacement(t, j, q);
      }
      assert forall k :: 0 <= k < |a + p| ==> !OccursAt(a + p + t + b, q.prefix, k) by {
        IndexIsFirst(t, q.prefix);
        NoneBeforeToken(a, p, t, b, q.prefix, j);
      }
      PassInToken(a + p, t, b, q, j);
    }
  }

  /** Two texts that differ at most in one token, behind a given prefix. */
  datatype Split = Split(a: string, t1: string, t2: string, b: string) {
    function One(p: string): string { a + p + t1 + b }
    function Two(p: string): string { a + p + t2 + b }
    ghost predicate Good() { NoDelim(t1) && NoDelim(t2) && Boundary(b) }
  }

  lemma HiddenRun(a: string, p: string, m: nat)
    requires Hides(p) && (m <= |a| ==> TokenEnd(a, m) == |a|)
    ensures forall k :: m <= k < |a + p| ==> !IsDelim((a + p)[k])
  {
    if m <= |a| {
      TokenEndSpec(a, m);
    }
  }

  lemma PassOpensHere(a: string, p: string, t: string, b: string, q: Pattern, i: nat, e: nat)
    requires q.prefix != "" && Index(a + p, q.prefix) == i && i + |q.prefix| <= |a|
    requires TokenEnd(a, i + |q.prefix|) == e < |a|
    ensures Pass(a + p + t + b, q) == a[..i] + q.replacement + Pass(a[e..] + p + t + b, q)
  {
    assert Index(a, q.prefix) == i by {
      IndexIsFirst(a + p, q.prefix);
      forall j | 0 <= j <= i ensures OccursAt(a, q.prefix, j) == OccursAt(a + p, q.prefix, j) {
        OccursLeft(a, p, q.prefix, j);
      }
      IndexUnique(a, q.prefix, i);
    }
    PassOpens(a, p + t + b, q, i, e);
    assert a + (p + t + b) == a + p + t + b;
    assert a[e..] + (p + t + b) == a[e..] + p + t + b;
  }

  lemma Prepend(head: string, s: Split, p: string)
    ensures head + s.One(p) == s.(a := head + s.a).One(p)
    ensures head + s.Two(p) == s.(a := head + s.a).Two(p)
  {
  }

  /** One pass over two texts that differ in one token behind the prefix `p`: the results are
      equal, or again differ in one token behind `p` only. `p`'s own pass makes them equal. */
  lemma {:induction false} PassHides(s: Split, p: string, q: Pattern) returns (same: bool, r: Split)
    requires Listed(q) && Inner(q.prefix) && NoDelim(q.prefix) && Hides(p) && s.Good()
    ensures same ==> Pass(s.One(p), q) == Pass(s.Two(p), q)
    ensures !same ==> r.Good() && Pass(s.One(p), q) == r.One(p) && Pass(s.Two(p), q) == r.Two(p)
    ensures q.prefix == p ==> same
    decreases |s.a|
  {
    same, r := true, s;
    var x := s.a + p;
    var i := Index(x, q.prefix);
    var m := i + |q.prefix|;
    if i < 0 {
      assert Absent(x, q.prefix) && q.prefix != p by {
        IndexIsFirst(x, q.prefix);
        assert x[|s.a|..|s.a| + |p|] == p;
        assert OccursAt(x, p, |s.a|);
      }
      var u1 := PassOnToken(s.a, p, s.t1, s.b, q);
      var u2 := PassOnToken(s.a, p, s.t2, s.b, q);
      PassBoundary(s.b, q);
      same, r := false, Split(s.a, u1, u2, Pass(s.b, q));
    } else if m <= |s.a| && TokenEnd(s.a, m) < |s.a| {
      var e := TokenEnd(s.a, m);
      PassOpensHere(s.a, p, s.t1, s.b, q, i, e);
      PassOpensHere(s.a, p, s.t2, s.b, q, i, e);
      same, r := PassHides(s.(a := s.a[e..]), p, q);
      Prepend(s.a[..i] + q.replacement, r, p);
      r := r.(a := s.a[..i] + q.replacement + r.a);
    } else {
      HiddenRun(s.a, p, m);
      PassSwallows(x, s.t1, s.b, q, i);
      PassSwallows(x, s.t2, s.b, q, i);
    }
  }

  lemma {:induction false} PassesHide(s: Split, p: string, ps: seq<Pattern>)
    requires forall q :: q in ps ==> q.prefix != "" && Listed(q) && Inner(q.prefix) && NoDelim(q.prefix)
    requires Hides(p) && s.Good() && exists q :: q in ps && q.prefix == p
    ensures Passes(s.One(p), ps) == Passes(s.Two(p), ps)
    decreases ps
  {
    var same, r := PassHides(s, p, ps[0]);
    if !same {
      PassesHide(r, p, ps[1..]);
    }
  }

  lemma InnerBy(q: string)
    requires q != "" && (IsDelim(q[|q| - 1]) ==> q == BEARER)
    requires forall k :: 0 <= k < |q| - 1 ==>
               q[k] != ' ' && q[k] != '-' && q[k] != '=' && q[k] != '_' && q[k] != 'A'
               && !IsDelim(q[k])
    ensures Inner(q)
  {
  }

  lemma HidesBy(p: string)
    requires |p| >= 3 && NoDelim(p) && (p[|p| - 1] == '-' || p[|p| - 1] == '=')
    ensures Hides(p)
  {
  }

  lemma HidesByUnderscore(p: string)
    requires |p| == 4 && NoDelim(p) && p[3] == '_' && p[2] != 'i' && p[1] != 's'
    ensures Hides(p)
  {
  }

  lemma KeyPrefixes()
    ensures Inner("sk-") && Hides("sk-") && Inner(BEARER)
  {
    InnerBy("sk-");
    HidesBy("sk-");
    InnerBy("Bearer ");
  }

  lemma ApiKeyInner()
    ensures Inner("api_key=")
  {
  }

  lemma AccessTokenInner()
    ensures Inner("access_token=")
  {
  }

  lemma TokenPrefix(p: Pattern)
    requires p in TOKEN_PATTERNS
    ensures Inner(p.prefix) && Hides(p.prefix)
  {
    if p == Keeping("token=") {
      assert Inner("token=") by { InnerBy("token="); }
      assert Hides("token=") by { HidesBy("token="); }
    } else if p == Keeping("api_key=") {
      ApiKeyInner();
      assert Hides("api_key=") by { HidesBy("api_key="); }
    } else if p == Keeping("apikey=") {
      assert Inner("apikey=") by { InnerBy("apikey="); }
      assert Hides("apikey=") by { HidesBy("apikey="); }
    } else {
      AccessTokenInner();
      assert Hides("access_token=") by { HidesBy("access_token="); }
    }
  }

  lemma PasswordPrefix(p: Pattern)
    requires p in PASSWORD_PATTERNS
    ensures Inner(p.prefix) && Hides(p.prefix)
  {
    if p == Keeping("secret=") {
      assert Inner("secret=") by { InnerBy("secret="); }
      assert Hides("secret=") by { HidesBy("secret="); }
    } else if p == Keeping("password=") {
      assert Inner("password=") by { InnerBy("password="); }
      assert Hides("password=") by { HidesBy("password="); }
    } else {
      assert Inner("passwd=") by { InnerBy("passwd="); }
      assert Hides("passwd=") by { HidesBy("passwd="); }
    }
  }

  lemma GithubWord(q: string)
    requires |q| == 4 && q[0] == 'g' && q[1] == 'h' && q[3] == '_'
    requires q[2] == 'p' || q[2] == 'o' || q[2] == 'u' || q[2] == 's' || q[2] == 'r'
    ensures Inner(q) && Hides(q)
  {
  }

  lemma GithubPrefix(p: Pattern)
    requires p in GITHUB_PATTERNS
    ensures Inner(p.prefix) && Hides(p.prefix)
  {
    GithubWord(p.prefix);
  }

  lemma OtherPrefix(p: Pattern)
    requires p in OTHER_PATTERNS
    ensures Inner(p.prefix) && Hides(p.prefix)
  {
    if p == Keeping("npm_") {
      assert Inner("npm_") by { InnerBy("npm_"); }
      assert Hides("npm_") by { HidesByUnderscore("npm_"); }
    } else if p == Keeping("xoxb-") {
      assert Inner("xoxb-") by { InnerBy("xoxb-"); }
      assert Hides("xoxb-") by { HidesBy("xoxb-"); }
    } else if p == Keeping("xoxp-") {
      assert Inner("xoxp-") by { InnerBy("xoxp-"); }
      assert Hides("xoxp-") by { HidesBy("xoxp-"); }
    } else {
      assert Inner("xoxs-") by { InnerBy("xoxs-"); }
      assert Hides("xoxs-") by { HidesBy("xoxs-"); }
    }
  }

  /** The patterns behind the first two. */
  const LATER_PATTERNS: seq<Pattern> :=
    TOKEN_PATTERNS + PASSWORD_PATTERNS + AWS_PATTERNS + GITHUB_PATTERNS + OTHER_PATTERNS

  lemma LaterPrefix(p: Pattern)
    requires p in LATER_PATTERNS
    ensures p in PATTERNS && Listed(p) && Inner(p.prefix) && Hides(p.prefix)
  {
    if p in TOKEN_PATTERNS {
      TokenPatternListed(p);
      TokenPrefix(p);
    } else if p in PASSWORD_PATTERNS {
      PasswordPatternListed(p);
      PasswordPrefix(p);
    } else if p in AWS_PATTERNS {
      PatternListed(p);
      assert Inner(AWS_PREFIX) && Hides(AWS_PREFIX);
    } else if p in GITHUB_PATTERNS {
      GithubPatternListed(p);
      GithubPrefix(p);
    } else {
      OtherPatternListed(p);
      OtherPrefix(p);
    }
  }
}
