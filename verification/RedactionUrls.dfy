/** What the password pass does to URLs: which passwords it replaces, and exactly when its output
    does not depend on the password of a URL. */
module RedactionUrls {
  import opened Text
  import opened Redaction
  import opened RedactionSafety
  import opened RedactionSecrecy
  import L = RedactionLeaks

  /** The schemes, in the order they are looked for. */
  const ORDER: seq<string> :=
    ["https://", "http://", "postgres://", "postgresql://", "mysql://", "mongodb://", "redis://"]

  predicate IsScheme(f: string) {
    || f == "https://" || f == "http://" || f == "postgres://" || f == "postgresql://" || f == "mysql://"
    || f == "mongodb://" || f == "redis://"
  }

  // ----- single characters -----

  ghost predicate No(c: char, s: string) {
    forall k :: 0 <= k < |s| ==> s[k] != c
  }

  lemma IndexOfChar(s: string, p: string, k: nat)
    requires |p| == 1 && k < |s| && s[k] == p[0] && forall j :: 0 <= j < k ==> s[j] != p[0]
    ensures Index(s, p) == k
  {
    assert s[k..k + 1] == p;
    forall j | 0 <= j < k ensures !OccursAt(s, p, j) {
      if OccursAt(s, p, j) {
        OccursChar(s, p, j, 0);
      }
    }
    IndexUnique(s, p, k);
  }

  lemma NoIndexOfChar(s: string, p: string)
    requires |p| == 1 && No(p[0], s)
    ensures Index(s, p) == -1
  {
    IndexIsFirst(s, p);
    if Index(s, p) >= 0 {
      OccursChar(s, p, Index(s, p), 0);
    }
  }

  /** The text up to the first `c`, and behind it. */
  lemma {:induction false} SplitAt(s: string, c: char) returns (found: bool, a: string, b: string)
    ensures No(c, a) && s == if found then a + [c] + b else a
    decreases |s|
  {
    if s == "" {
      found, a, b := false, "", "";
    } else if s[0] == c {
      found, a, b := true, "", s[1..];
      assert s == "" + [c] + b;
    } else {
      found, a, b := SplitAt(s[1..], c);
      var first := [s[0]];
      assert s == first + s[1..];
      SplitLonger(first, a, c, b);
      a := first + a;
    }
  }

  lemma SplitLonger(x: string, a: string, c: char, b: string)
    ensures x + (a + [c] + b) == x + a + [c] + b
  {
  }

  // ----- one step, on the pieces of the text -----

  /** What becomes of the text behind a scheme: the part between the first `:` and the first `@`
      behind it is replaced, unless the `@` is missing or comes first. */
  function UrlTail(rest: string): string {
    var at := Index(rest, "@");
    if at < 0 || Index(rest[..at], ":") < 0 then rest
    else rest[..Index(rest[..at], ":")] + ":" + MARK + rest[at..]
  }

  lemma TailReplaces(u: string, w: string, h: string)
    requires No(':', u) && No('@', u) && No('@', w)
    ensures UrlTail(u + ":" + w + "@" + h) == u + ":" + MARK + "@" + h
  {
    var rest, at, colon := u + ":" + w + "@" + h, "@", ":";
    IndexOfChar(rest, at, |u| + 1 + |w|);
    assert rest[..|u| + 1 + |w|] == u + ":" + w;
    IndexOfChar(u + ":" + w, colon, |u|);
    assert rest[..|u|] == u && rest[|u| + 1 + |w|..] == "@" + h;
    Glue(u, MARK, h);
  }

  lemma Glue(x: string, m: string, h: string)
    ensures x + ":" + m + ("@" + h) == x + ":" + m + "@" + h
  {
  }

  lemma TailWithoutColon(u: string, h: string)
    requires No('@', u) && No(':', u)
    ensures UrlTail(u + "@" + h) == u + "@" + h
  {
    var rest, at, colon := u + "@" + h, "@", ":";
    IndexOfChar(rest, at, |u|);
    assert rest[..|u|] == u;
    NoIndexOfChar(u, colon);
  }

  lemma StepIs(s: string, f: string, x: string, rest: string)
    requires Index(s, f) >= 0 && |x| == Index(s, f) + |f| && s == x + rest
    ensures UrlStep(s, f) == x + UrlTail(rest)
  {
    assert s[..|x|] == x && s[|x|..] == rest;
    var at := Index(rest, "@");
    if at >= 0 && Index(rest[..at], ":") >= 0 {
      var colon := Index(rest[..at], ":");
      assert rest[..at][..colon] == rest[..colon];
      Assoc3(x, rest[..colon] + ":" + MARK, rest[at..]);
    }
  }

  /** Text in front in which the scheme does not start is copied. */
  lemma StepShift(x: string, y: string, f: string)
    requires f != "" && forall k :: 0 <= k < |x| ==> !OccursAt(x + y, f, k)
    ensures UrlStep(x + y, f) == x + UrlStep(y, f)
  {
    IndexShift(x, y, f);
    var i := Index(y, f);
    if i >= 0 {
      var front, rest := y[..i + |f|], y[i + |f|..];
      assert y == front + rest;
      StepIs(y, f, front, rest);
      Assoc3(x, front, rest);
      StepIs(x + y, f, x + front, rest);
      Assoc3(x, front, UrlTail(rest));
    }
  }

  // ----- schemes -----

  /** Lower-case letters, `:` and `/`. */
  predicate SchemeChar(c: char) {
    'a' <= c <= 'z' || c == ':' || c == '/'
  }

  ghost predicate Shaped(f: string) {
    && |f| >= 7 && f[|f| - 3] == ':' && f[|f| - 2] == '/' && f[|f| - 1] == '/'
    && forall k :: 0 <= k < |f| - 3 ==> 'a' <= f[k] <= 'z'
  }

  lemma SchemeShape(f: string)
    requires IsScheme(f)
    ensures Shaped(f)
  {
  }

  lemma OrderIs()
    ensures SCHEMES == ORDER
    ensures forall f :: f in ORDER <==> IsScheme(f)
    ensures Distinct(ORDER)
  {
    DistinctOrder(ORDER);
  }

  ghost predicate Distinct(fs: seq<string>) {
    fs == [] || (fs[0] !in fs[1..] && Distinct(fs[1..]))
  }

  lemma DistinctOrder(fs: seq<string>)
    requires fs == ORDER
    ensures Distinct(fs)
  {
    assert Distinct(fs[5..]) by { assert fs[5..] == ["mongodb://", "redis://"]; }
    assert fs[4..][1..] == fs[5..] && fs[3..][1..] == fs[4..] && fs[2..][1..] == fs[3..] && fs[1..][1..] == fs[2..];
  }

  lemma SchemeHasNo(f: string, k: nat)
    requires Shaped(f) && k < |f|
    ensures SchemeChar(f[k]) && f[k] != '@' && !MarkerChar(f[k])
  {
  }

  /** Around a replaced password a scheme occurs where it did, and nowhere else. */
  lemma AroundMark(x: string, m: string, y: string, f: string, k: int)
    requires Shaped(f) && m == MARK && OccursAt(x + m + y, f, k)
    ensures if k < |x| then OccursAt(x, f, k) else k >= |x + m| && OccursAt(y, f, k - |x + m|)
  {
    var s := x + m + y;
    if k < |x| {
      if k + |f| > |x| {
        assert s[|x|] == m[0];
        OccursChar(s, f, k, |x| - k);
        SchemeHasNo(f, |x| - k);
        MarkChar(0);
      }
      Assoc3(x, m, y);
      OccursLeft(x, m + y, f, k);
    } else if k < |x + m| {
      assert s[k] == m[k - |x|];
      OccursChar(s, f, k, 0);
      SchemeHasNo(f, 0);
      MarkChar(k - |x|);
    } else {
      OccursRight(x + m, y, f, k);
    }
  }

  /** Across an `@` no scheme occurs. */
  lemma AroundAt(x: string, y: string, f: string, k: int)
    requires Shaped(f) && y != "" && y[0] == '@' && OccursAt(x + y, f, k)
    ensures if k < |x| then OccursAt(x, f, k) else OccursAt(y, f, k - |x|)
  {
    if k < |x| {
      if k + |f| > |x| {
        assert (x + y)[|x|] == y[0];
        OccursChar(x + y, f, k, |x| - k);
        SchemeHasNo(f, |x| - k);
      }
      OccursLeft(x, y, f, k);
    } else {
      OccursRight(x, y, f, k);
    }
  }

  // ----- one URL in a text without others -----

  lemma {:induction false} StepsAbsent(s: string, fs: seq<string>)
    requires forall f :: f in fs ==> Absent(s, f)
    ensures UrlSteps(s, fs) == s
    decreases fs
  {
    if fs != [] {
      IndexIsFirst(s, fs[0]);
      StepsAbsent(s, fs[1..]);
    }
  }

  /** Only the step of the one scheme that occurs does anything. */
  lemma {:induction false} StepsOnce(s: string, s': string, scheme: string, fs: seq<string>)
    requires scheme in fs && Distinct(fs)
    requires forall f :: f in fs && f != scheme ==> Absent(s, f) && Absent(s', f)
    requires UrlStep(s, scheme) == s'
    ensures UrlSteps(s, fs) == s'
    decreases fs
  {
    if fs[0] == scheme {
      StepsAbsent(s', fs[1..]);
    } else {
      IndexIsFirst(s, fs[0]);
      StepsOnce(s, s', scheme, fs[1..]);
    }
  }

  lemma ReplacedIsAbsent(x: string, w: string, y: string, f: string, m: string)
    requires Shaped(f) && m == MARK && Absent(x + w + y, f)
    ensures Absent(x + m + y, f)
  {
    forall k ensures !OccursAt(x + m + y, f, k) {
      if OccursAt(x + m + y, f, k) {
        AroundMark(x, m, y, f, k);
        if k < |x| {
          Assoc3(x, w, y);
          OccursLeft(x, w + y, f, k);
        } else {
          OccursRight(x + w, y, f, |x + w| + k - |x + m|);
        }
      }
    }
  }

  /** No listed prefix occurs. */
  ghost predicate NoPrefix(s: string) {
    forall q :: q in PATTERNS ==> Absent(s, q.prefix)
  }

  lemma {:induction false} PassesIdle(s: string, ps: seq<Pattern>)
    requires forall q :: q in ps ==> q.prefix != "" && Absent(s, q.prefix)
    ensures Passes(s, ps) == s
    decreases ps
  {
    if ps != [] {
      IndexIsFirst(s, ps[0].prefix);
      PassesIdle(s, ps[1..]);
    }
  }

  lemma RedactIs(s: string)
    requires NoPrefix(s)
    ensures Redact(s) == UrlSteps(s, ORDER)
  {
    PatternsNonEmpty();
    PassesIdle(s, PATTERNS);
    OrderIs();
  }

  /** For each of the seven schemes: in a text that is one URL and in which no listed prefix and no
      second scheme occurs, exactly the password is replaced. */
  lemma PasswordIsReplaced(scheme: string, u: string, pw: string, h: string)
    requires IsScheme(scheme) && No(':', u) && No('@', u) && No('@', pw)
    requires var s := scheme + u + ":" + pw + "@" + h;
             NoPrefix(s) && forall f, i :: IsScheme(f) && OccursAt(s, f, i) ==> f == scheme && i == 0
    ensures Redact(scheme + u + ":" + pw + "@" + h) == scheme + u + ":" + "[REDACTED]" + "@" + h
  {
    var s, m := scheme + u + ":" + pw + "@" + h, MARK;
    var s' := scheme + u + ":" + m + "@" + h;
    OrderIs();
    UrlIsReplaced(scheme, u, pw, h, m);
    forall f | f in ORDER && f != scheme ensures Absent(s, f) && Absent(s', f) {
      SchemeShape(f);
      assert s == (scheme + u + ":") + pw + ("@" + h) && s' == (scheme + u + ":") + m + ("@" + h) by {
        Assoc3(scheme + u + ":" + pw, "@", h);
        Assoc3(scheme + u + ":" + m, "@", h);
      }
      ReplacedIsAbsent(scheme + u + ":", pw, "@" + h, f, m);
    }
    StepsOnce(s, s', scheme, ORDER);
    RedactIs(s);
  }

  lemma UrlIsReplaced(scheme: string, u: string, pw: string, h: string, m: string)
    requires m == MARK && No(':', u) && No('@', u) && No('@', pw)
    ensures UrlStep(scheme + u + ":" + pw + "@" + h, scheme) == scheme + u + ":" + m + "@" + h
  {
    var s, rest := scheme + u + ":" + pw + "@" + h, u + ":" + pw + "@" + h;
    assert s == scheme + rest;
    assert s[0..|scheme|] == scheme;
    IndexUnique(s, scheme, 0);
    StepIs(s, scheme, scheme, rest);
    TailReplaces(u, pw, h);
    assert scheme + (u + ":" + m + "@" + h) == scheme + u + ":" + m + "@" + h;
  }

  // ----- a text in three parts: up to the password, the password, from the `@` on -----

  ghost predicate EndsColon(x: string) {
    x != "" && x[|x| - 1] == ':'
  }

  ghost predicate StartsAt(y: string) {
    y != "" && y[0] == '@'
  }

  /** `x` up to the end of its first `f`. */
  function UpTo(x: string, f: string): string
    requires Index(x, f) >= 0
  {
    x[..Index(x, f) + |f|]
  }

  function From(x: string, f: string): string
    requires Index(x, f) >= 0
  {
    x[Index(x, f) + |f|..]
  }

  /** The scheme occurs in `x` and no `@` behind it: its step reaches beyond `x`. */
  ghost predicate Reaches(x: string, f: string) {
    Index(x, f) >= 0 && No('@', From(x, f))
  }

  /** What becomes of `r` behind a scheme when an `@` comes next. */
  function Stub(r: string): string {
    var t := UrlTail(r + "@");
    if t == "" then "" else t[..|t| - 1]
  }

  /** What the step of the scheme makes of `x` when an `@` comes next. */
  function FrontStep(x: string, f: string): string {
    if Index(x, f) < 0 then x else UpTo(x, f) + Stub(From(x, f))
  }

  lemma Parted(x: string, f: string)
    requires Index(x, f) >= 0
    ensures x == UpTo(x, f) + From(x, f) && |UpTo(x, f)| == Index(x, f) + |f|
  {
  }

  lemma StepIn(x: string, y: string, f: string)
    requires Index(x, f) >= 0
    ensures UrlStep(x + y, f) == UpTo(x, f) + UrlTail(From(x, f) + y)
  {
    Parted(x, f);
    IndexLeft(x, y, f);
    Assoc3(UpTo(x, f), From(x, f), y);
    StepIs(x + y, f, UpTo(x, f), From(x, f) + y);
  }

  lemma DropLast(x: string, at: string)
    requires |at| == 1
    ensures (x + at)[..|x + at| - 1] == x && x + at != ""
  {
    assert (x + at)[..|x|] == x;
  }

  /** The tail of a text with an `@` does not depend on what follows. */
  lemma TailEnds(r: string, y: string)
    requires !No('@', r)
    ensures UrlTail(r + y) == UrlTail(r) + y
    ensures EndsColon(r) ==> EndsColon(UrlTail(r))
  {
    var found, a, h := SplitAt(r, '@');
    var colon, u, w := SplitAt(a, ':');
    assert r == a + "@" + h && r + y == a + "@" + (h + y) by { Assoc3(a + "@", h, y); }
    if colon {
      NoParts('@', u, ':', w);
      TailReplaces(u, w, h);
      TailReplaces(u, w, h + y);
      Assoc3(u + ":" + MARK + "@", h, y);
      if EndsColon(r) {
        assert h != "" && h[|h| - 1] == r[|r| - 1] by { LastOf(a, h); }
      }
    } else {
      TailWithoutColon(a, h);
      TailWithoutColon(a, h + y);
    }
  }

  lemma LastOf(a: string, h: string)
    requires EndsColon(a + "@" + h)
    ensures h != "" && h[|h| - 1] == (a + "@" + h)[|a + "@" + h| - 1]
  {
    assert (a + "@" + h)[|a|] == '@';
  }

  lemma NoParts(c: char, u: string, d: char, w: string)
    requires No(c, u + [d] + w)
    ensures No(c, u) && No(c, w)
  {
    var s := u + [d] + w;
    assert forall k :: 0 <= k < |u| ==> s[k] == u[k];
    assert forall k :: 0 <= k < |w| ==> s[|u| + 1 + k] == w[k];
  }

  lemma Reparted(x: string, w: string, pw: string, at: string, h: string)
    ensures x + w + pw + (at + h) == x + (w + pw) + at + h
  {
  }

  /** A tail without an `@`: everything behind its first `:` goes. */
  lemma StubIs(r: string) returns (colon: bool, u: string, w: string)
    requires No('@', r)
    ensures No(':', u) && No('@', u) && No('@', w)
    ensures r == (if colon then u + ":" + w else u) && Stub(r) == if colon then u + ":" + MARK else u
  {
    var at, none := "@", "";
    colon, u, w := SplitAt(r, ':');
    assert r + at == r + at + none;
    if colon {
      NoParts('@', u, ':', w);
      TailReplaces(u, w, none);
      assert u + ":" + MARK + at + none == u + ":" + MARK + at;
      DropLast(u + ":" + MARK, at);
    } else {
      w := "";
      TailWithoutColon(r, none);
      DropLast(r, at);
    }
  }

  /** A tail with an `@` keeps everything from there on. */
  lemma StubBehindAt(r: string)
    requires !No('@', r)
    ensures Stub(r) == UrlTail(r)
  {
    var at := "@";
    TailEnds(r, at);
    DropLast(UrlTail(r), at);
  }

  /** Without an `@`, what comes up to the next one goes with it. */
  lemma TailReaches(r: string, pw: string, y: string)
    requires No('@', r) && No('@', pw) && StartsAt(y) && (EndsColon(r) || pw == "")
    ensures UrlTail(r + pw + y) == Stub(r) + y
  {
    var colon, u, w := StubIs(r);
    if colon {
      TailReplacesUpTo(u, w, pw, y);
    } else {
      assert r + pw == r;
      TailKeeps(r, y);
    }
  }

  lemma TailReplacesUpTo(u: string, w: string, pw: string, y: string)
    requires No(':', u) && No('@', u) && No('@', w) && No('@', pw) && StartsAt(y)
    ensures UrlTail(u + ":" + w + pw + y) == u + ":" + MARK + y
  {
    var at, h := "@", y[1..];
    assert y == at + h;
    TailReplaces(u, w + pw, h);
    Reparted(u + ":", w, pw, at, h);
    Assoc3(u + ":" + MARK, at, h);
  }

  lemma TailKeeps(u: string, y: string)
    requires No(':', u) && No('@', u) && StartsAt(y)
    ensures UrlTail(u + y) == u + y
  {
    var at, h := "@", y[1..];
    assert y == at + h;
    Assoc3(u, at, h);
    TailWithoutColon(u, h);
  }

  /** The step of a scheme that occurs in `x`, with an `@` behind it. */
  lemma StepInFront(x: string, rest: string, f: string)
    requires Index(x, f) >= 0 && !Reaches(x, f)
    ensures UrlStep(x + rest, f) == FrontStep(x, f) + rest
    ensures EndsColon(x) ==> EndsColon(FrontStep(x, f))
  {
    var front, r := UpTo(x, f), From(x, f);
    StepIn(x, rest, f);
    TailEnds(r, rest);
    StubBehindAt(r);
    Assoc3(front, UrlTail(r), rest);
    if EndsColon(x) {
      Parted(x, f);
      EndOf(front, r);
    }
  }

  lemma EndOf(front: string, r: string)
    requires r != ""
    ensures EndsColon(front + r) <==> EndsColon(r)
  {
    assert (front + r)[|front + r| - 1] == r[|r| - 1];
  }

  /** The step of a scheme that reaches beyond `x` takes the password with it. */
  lemma StepReaches(x: string, pw: string, y: string, f: string)
    requires Reaches(x, f) && No('@', pw) && StartsAt(y) && (pw == "" || (EndsColon(x) && Shaped(f)))
    ensures UrlStep(x + pw + y, f) == FrontStep(x, f) + y
  {
    var front, r := UpTo(x, f), From(x, f);
    Parted(x, f);
    Assoc3(x, pw, y);
    StepIn(x, pw + y, f);
    Assoc3(r, pw, y);
    if pw != "" {
      ColonBehind(x, f);
    }
    TailReaches(r, pw, y);
    Assoc3(front, Stub(r), y);
  }

  lemma ColonBehind(x: string, f: string)
    requires EndsColon(x) && Shaped(f) && Index(x, f) >= 0
    ensures EndsColon(From(x, f))
  {
    Parted(x, f);
    IndexIsFirst(x, f);
    if From(x, f) == "" {
      OccursChar(x, f, Index(x, f), |f| - 1);
    }
  }

  /** The step of a scheme that occurs neither in `x` nor across the `@`. */
  lemma StepBehind(x: string, y: string, f: string)
    requires Index(x, f) < 0 && StartsAt(y) && Shaped(f)
    ensures UrlStep(x + y, f) == x + UrlStep(y, f) && StartsAt(UrlStep(y, f))
  {
    IndexIsFirst(x, f);
    forall k | 0 <= k < |x| ensures !OccursAt(x + y, f, k) {
      if OccursAt(x + y, f, k) {
        AroundAt(x, y, f, k);
      }
    }
    StepShift(x, y, f);
    StepKeepsAt(y, f);
  }

  lemma StepKeepsAt(y: string, f: string)
    requires StartsAt(y) && Shaped(f)
    ensures StartsAt(UrlStep(y, f))
  {
    if Index(y, f) >= 0 {
      var front, tail := UpTo(y, f), UrlTail(From(y, f));
      assert UrlStep(y, f) == front + tail by {
        Parted(y, f);
        StepIs(y, f, front, From(y, f));
      }
      assert front != "" && front[0] == y[0];
    }
  }

  // ----- the whole pass -----

  /** What the steps make of the front. */
  function FrontEnd(x: string, fs: seq<string>): string
    decreases fs
  {
    if fs == [] then x else FrontEnd(FrontStep(x, fs[0]), fs[1..])
  }

  /** What the steps make of the text from the `@` on: only the schemes that do not occur in front
      work on it, and while the password is there (`held`), not the ones in `skip`. */
  ghost function Behind(x: string, y: string, held: bool, fs: seq<string>, skip: set<string>): string
    decreases fs
  {
    if fs == [] then y
    else if Index(x, fs[0]) >= 0 then
      Behind(FrontStep(x, fs[0]), y, held && !No('@', From(x, fs[0])), fs[1..], skip)
    else if held && fs[0] in skip then Behind(x, y, held, fs[1..], skip)
    else Behind(x, UrlStep(y, fs[0]), held, fs[1..], skip)
  }

  /** The schemes whose step the password takes, because it is the first to contain them. */
  ghost function Taken(x: string, pw: string, fs: seq<string>): set<string>
    decreases fs
  {
    if fs == [] || Reaches(x, fs[0]) then {}
    else
      var f, more := fs[0], fs[1..];
      if Index(x, f) >= 0 then Taken(FrontStep(x, f), pw, more)
      else if Index(x + pw, f) >= 0 then {f} + Taken(x, PasswordStep(x, pw, f), more)
      else Taken(x, pw, more)
  }

  /** What such a step leaves of the password. */
  ghost function PasswordStep(x: string, pw: string, f: string): string {
    var r := FrontStep(x + pw, f);
    if |x| <= |r| then r[|x|..] else ""
  }

  /** The schemes whose step a password can take: those that do not occur in front when their turn
      comes, up to the step that takes the password away. */
  ghost function Takeable(x: string, fs: seq<string>): set<string>
    decreases fs
  {
    if fs == [] || Reaches(x, fs[0]) then {}
    else if Index(x, fs[0]) >= 0 then Takeable(FrontStep(x, fs[0]), fs[1..])
    else {fs[0]} + Takeable(x, fs[1..])
  }

  /** Some step takes the password away. */
  ghost predicate IsReached(x: string, fs: seq<string>)
    decreases fs
  {
    fs != [] && (Reaches(x, fs[0]) || IsReached(FrontStep(x, fs[0]), fs[1..]))
  }

  ghost predicate AllShaped(fs: seq<string>) {
    forall f :: f in fs ==> Shaped(f)
  }

  /** The pass where the password is gone. */
  lemma {:induction false} RunGone(x: string, y: string, fs: seq<string>, skip: set<string>)
    requires StartsAt(y) && AllShaped(fs)
    ensures UrlSteps(x + y, fs) == FrontEnd(x, fs) + Behind(x, y, false, fs, skip)
    decreases fs
  {
    if fs != [] {
      var f, more, none := fs[0], fs[1..], "";
      assert x + none + y == x + y;
      if Index(x, f) < 0 {
        StepBehind(x, y, f);
        RunGone(x, UrlStep(y, f), more, skip);
      } else {
        if Reaches(x, f) {
          StepReaches(x, none, y, f);
        } else {
          StepInFront(x, y, f);
        }
        RunGone(FrontStep(x, f), y, more, skip);
      }
    }
  }

  /** What is skipped matters only as far as its turn is still to come. */
  lemma {:induction false} BehindSkips(x: string, y: string, held: bool, fs: seq<string>, a: set<string>, b: set<string>)
    requires forall f :: f in fs ==> (f in a <==> f in b)
    ensures Behind(x, y, held, fs, a) == Behind(x, y, held, fs, b)
    decreases fs
  {
    if fs != [] {
      var f, more := fs[0], fs[1..];
      if Index(x, f) >= 0 {
        BehindSkips(FrontStep(x, f), y, held && !No('@', From(x, f)), more, a, b);
      } else if held && f in a {
        BehindSkips(x, y, held, more, a, b);
      } else {
        BehindSkips(x, UrlStep(y, f), held, more, a, b);
      }
    }
  }

  /** Where the password ends the first occurrence of a scheme. */
  lemma PartedInside(x: string, pw: string, f: string) returns (head: string, r: string)
    requires Index(x, f) < 0 && Index(x + pw, f) >= 0
    ensures pw == head + r && UpTo(x + pw, f) == x + head && From(x + pw, f) == r
  {
    var i := Index(x + pw, f);
    IndexIsFirst(x, f);
    IndexIsFirst(x + pw, f);
    if i + |f| <= |x| {
      OccursLeft(x, pw, f, i);
    }
    head, r := pw[..i + |f| - |x|], pw[i + |f| - |x|..];
  }

  /** The step of a scheme that the password is the first to contain works inside the password. */
  lemma StepInPassword(x: string, pw: string, y: string, f: string)
    requires Index(x, f) < 0 && Index(x + pw, f) >= 0 && No('@', pw) && StartsAt(y) && Shaped(f)
    ensures UrlStep(x + pw + y, f) == x + PasswordStep(x, pw, f) + y && No('@', PasswordStep(x, pw, f))
    ensures FrontStep(x + pw, f) == x + PasswordStep(x, pw, f)
  {
    var none := "";
    var head, r := PartedInside(x, pw, f);
    RightHasNo('@', head, r);
    assert x + pw + none == x + pw;
    StepReaches(x + pw, none, y, f);
    StubStaysPlain(r);
    Assoc3(x, head, Stub(r));
    DropLeft(x, head + Stub(r));
  }

  lemma RightHasNo(c: char, head: string, r: string)
    requires No(c, head + r)
    ensures No(c, head) && No(c, r)
  {
    assert forall k :: 0 <= k < |head| ==> (head + r)[k] == head[k];
    assert forall k :: 0 <= k < |r| ==> (head + r)[|head| + k] == r[k];
  }

  lemma StubStaysPlain(r: string)
    requires No('@', r)
    ensures No('@', Stub(r))
  {
    var colon, u, w := StubIs(r);
    if colon {
      NoInMark(u, MARK);
    }
  }

  lemma NoInMark(u: string, m: string)
    requires No('@', u) && m == MARK
    ensures No('@', u + ":" + m)
  {
    forall k | 0 <= k < |m| ensures m[k] != '@' {
      MarkChar(k);
    }
  }

  /** The password leaves one thing in the output: which schemes it took. */
  lemma {:induction false} RunHeld(x: string, pw: string, y: string, fs: seq<string>)
    requires EndsColon(x) && No('@', pw) && StartsAt(y) && AllShaped(fs) && Distinct(fs) && IsReached(x, fs)
    ensures UrlSteps(x + pw + y, fs) == FrontEnd(x, fs) + Behind(x, y, true, fs, Taken(x, pw, fs))
    decreases fs
  {
    var f, more := fs[0], fs[1..];
    var taken := Taken(x, pw, fs);
    if Reaches(x, f) {
      StepReaches(x, pw, y, f);
      RunGone(FrontStep(x, f), y, more, taken);
    } else if Index(x, f) >= 0 {
      StepInFront(x, pw + y, f);
      Assoc3(x, pw, y);
      Assoc3(FrontStep(x, f), pw, y);
      RunHeld(FrontStep(x, f), pw, y, more);
    } else if Index(x + pw, f) >= 0 {
      StepInPassword(x, pw, y, f);
      RunHeld(x, PasswordStep(x, pw, f), y, more);
      BehindSkips(x, y, true, more, Taken(x, PasswordStep(x, pw, f), more), taken);
    } else {
      TakenIsLater(x, pw, more);
      StepBehind(x + pw, y, f);
      Assoc3(x, pw, UrlStep(y, f));
      RunHeld(x, pw, UrlStep(y, f), more);
    }
  }

  lemma {:induction false} TakenIsLater(x: string, pw: string, fs: seq<string>)
    ensures forall f :: f in Taken(x, pw, fs) ==> f in fs
    decreases fs
  {
    if fs != [] && !Reaches(x, fs[0]) {
      var f, more := fs[0], fs[1..];
      if Index(x, f) >= 0 {
        TakenIsLater(FrontStep(x, f), pw, more);
      } else if Index(x + pw, f) >= 0 {
        TakenIsLater(x, PasswordStep(x, pw, f), more);
      } else {
        TakenIsLater(x, pw, more);
      }
    }
  }

  lemma {:induction false} TakenIsTakeable(x: string, pw: string, fs: seq<string>)
    ensures Taken(x, pw, fs) <= Takeable(x, fs)
    decreases fs
  {
    if fs != [] && !Reaches(x, fs[0]) {
      var f, more := fs[0], fs[1..];
      if Index(x, f) >= 0 {
        TakenIsTakeable(FrontStep(x, f), pw, more);
      } else if Index(x + pw, f) >= 0 {
        TakenIsTakeable(x, PasswordStep(x, pw, f), more);
      } else {
        TakenIsTakeable(x, pw, more);
      }
    }
  }

  // ----- inside the first URL of a scheme -----

  /** A step that does not reach beyond `x` leaves the URL open in which `x` ends. */
  lemma StepKeepsReach(x: string, f: string, scheme: string)
    requires Reaches(x, scheme) && !Reaches(x, f) && Shaped(f) && Shaped(scheme)
    ensures Reaches(FrontStep(x, f), scheme)
  {
    if Index(x, f) >= 0 {
      var front, r, at := UpTo(x, f), From(x, f), "@";
      Parted(x, f);
      var found, a, h := SplitAt(r, '@');
      assert found && r == a + "@" + h;
      StubBehindAt(r);
      var colon, u, w := SplitAt(a, ':');
      if colon {
        NoParts('@', u, ':', w);
        TailReplaces(u, w, h);
        HeadApart(front, u, w, at, h);
        HeadApart(front, u, MARK, at, h);
        ReachMoves(front + u + ":", w, at + h, scheme, MARK);
      } else {
        TailWithoutColon(a, h);
      }
    }
  }

  lemma HeadApart(front: string, u: string, w: string, at: string, h: string)
    ensures front + (u + ":" + w + at + h) == front + u + ":" + w + (at + h)
  {
  }

  lemma AtBehind(x: string, f: string, k: int)
    requires Index(x, f) >= 0 && Index(x, f) + |f| <= k < |x| && x[k] == '@'
    ensures !Reaches(x, f)
  {
    assert From(x, f)[k - Index(x, f) - |f|] == '@';
  }

  lemma ReachMoves(head: string, w: string, q: string, scheme: string, m: string)
    requires Shaped(scheme) && m == MARK && StartsAt(q) && Reaches(head + w + q, scheme)
    ensures Reaches(head + m + q, scheme)
  {
    var x, x' := head + w + q, head + m + q;
    var p := Index(x, scheme);
    IndexIsFirst(x, scheme);
    assert x[|head + w|] == '@';
    if p < |head + w| {
      AroundAt(head + w, q, scheme, p);
      AtBehind(x, scheme, |head + w|);
    }
    forall k | 0 <= k < |head + w| ensures !OccursAt(head + w + q, scheme, k) {
    }
    IndexShift(head + w, q, scheme);
    forall k | 0 <= k < |head + m| ensures !OccursAt(head + m + q, scheme, k) {
      if OccursAt(head + m + q, scheme, k) {
        AroundMark(head, m, q, scheme, k);
        Assoc3(head, w, q);
        OccursLeft(head, w + q, scheme, k);
      }
    }
    IndexShift(head + m, q, scheme);
    assert From(x, scheme) == q[Index(q, scheme) + |scheme|..] == From(x', scheme);
  }

  lemma {:induction false} UrlIsReached(x: string, scheme: string, fs: seq<string>)
    requires Reaches(x, scheme) && scheme in fs && AllShaped(fs)
    ensures IsReached(x, fs)
    decreases fs
  {
    if !Reaches(x, fs[0]) {
      StepKeepsReach(x, fs[0], scheme);
      UrlIsReached(FrontStep(x, fs[0]), scheme, fs[1..]);
    }
  }

  // ----- a password for every choice of schemes -----

  /** The chosen schemes in a row, the one whose turn comes first at the end. */
  function Spell(fs: seq<string>, chosen: set<string>): string
    decreases fs
  {
    if fs == [] then "" else Spell(fs[1..], chosen) + if fs[0] in chosen then fs[0] else ""
  }

  /** No scheme is the end of another one. */
  lemma SchemesDiffer(e: string, f: string)
    requires IsScheme(e) && IsScheme(f) && e != f
    ensures e[|e| - 7..|e| - 3] != f[|f| - 7..|f| - 3]
  {
    SchemeShape(e);
    SchemeShape(f);
    assert Word(e) != Word(f);
    WordIs(e);
    WordIs(f);
  }

  /** The last four letters. */
  function Word(f: string): string {
    if f == "https://" then "ttps" else if f == "http://" then "http" else if f == "postgres://" then "gres"
    else if f == "postgresql://" then "esql" else if f == "mysql://" then "ysql" else if f == "mongodb://" then "godb" else "edis"
  }

  lemma WordIs(f: string)
    requires IsScheme(f)
    ensures |f| >= 7 && f[|f| - 7..|f| - 3] == Word(f)
  {
    if f == "https://" {
      assert f[1..5] == "ttps";
    } else if f == "http://" {
      assert f[0..4] == "http";
    } else if f == "postgres://" {
      assert f[4..8] == "gres";
    } else if f == "postgresql://" {
      assert f[6..10] == "esql";
    } else if f == "mysql://" {
      assert f[1..5] == "ysql";
    } else if f == "mongodb://" {
      assert f[3..7] == "godb";
    } else {
      assert f[1..5] == "edis";
    }
  }

  /** An occurrence of a scheme in `v + e + w` that starts in `v` or `e` lies in `v`, for another
      scheme `e`. */
  lemma NotAcross(v: string, e: string, w: string, f: string, k: int)
    requires IsScheme(e) && IsScheme(f) && e != f && No('/', w)
    requires OccursAt(v + e + w, f, k)
    ensures k + |f| <= |v|
  {
    SchemeShape(e);
    SchemeShape(f);
    if k + |f| > |v| {
      AcrossEnds(v, e, w, f, k);
      EndsTogether(v, e, w, f, k);
    }
  }

  lemma CharOfThree(v: string, e: string, w: string, i: nat)
    requires i < |e| + |w|
    ensures (v + e + w)[|v| + i] == if i < |e| then e[i] else w[i - |e|]
  {
  }

  lemma AcrossEnds(v: string, e: string, w: string, f: string, k: int)
    requires Shaped(e) && Shaped(f) && No('/', w) && OccursAt(v + e + w, f, k) && k + |f| > |v|
    ensures k + |f| == |v| + |e|
  {
    var n := k + |f| - |v|;
    OccursChar(v + e + w, f, k, |f| - 1);
    CharOfThree(v, e, w, n - 1);
    if n >= 2 {
      OccursChar(v + e + w, f, k, |f| - 2);
      CharOfThree(v, e, w, n - 2);
    }
    if n <= |e| {
      InnerEnd(e, n);
    }
  }

  /** In a scheme `//` stands only at the end. */
  lemma InnerEnd(e: string, n: nat)
    requires Shaped(e) && n <= |e|
    ensures n >= 2 && e[n - 1] == '/' && e[n - 2] == '/' ==> n == |e|
    ensures n == 1 ==> e[0] != '/'
  {
  }

  lemma EndsTogether(v: string, e: string, w: string, f: string, k: int)
    requires IsScheme(e) && IsScheme(f) && e != f && Shaped(e) && Shaped(f)
    ensures !(k + |f| == |v| + |e| && OccursAt(v + e + w, f, k))
  {
    if k + |f| == |v| + |e| && OccursAt(v + e + w, f, k) {
      var s, j := v + e + w, k + |f|;
      SliceOfSlice(s, k, j, |f| - 7, |f| - 3);
      SliceOfSlice(s, |v|, j, |e| - 7, |e| - 3);
      assert s[|v|..j] == e;
      SchemesDiffer(e, f);
    }
  }

  lemma SliceOfSlice(s: string, i: nat, j: nat, a: nat, b: nat)
    requires i <= j <= |s| && a <= b <= j - i
    ensures s[i..j][a..b] == s[i + a..i + b]
  {
    forall n | 0 <= n < b - a ensures s[i..j][a..b][n] == s[i + a..i + b][n] {
      assert s[i..j][a + n] == s[i + a + n];
    }
  }

  ghost predicate AllSchemes(fs: seq<string>) {
    forall f :: f in fs ==> IsScheme(f)
  }

  /** A scheme whose turn is over, and what is left of those behind it. */
  function Spent(e: string, k: string): string {
    if e == "" then "" else e + k
  }

  ghost predicate IsSpent(e: string, k: string, fs: seq<string>) {
    No('/', k) && No('@', k) && (e == "" || (IsScheme(e) && e !in fs))
  }

  lemma AddsNone(v: string, e: string, k: string, f: string)
    requires Absent(v, f) && IsScheme(f) && No('/', k) && (e == "" || (IsScheme(e) && e != f))
    ensures Absent(v + Spent(e, k), f)
  {
    if e == "" {
      assert v + "" == v;
    } else {
      Assoc3(v, e, k);
      forall i ensures !OccursAt(v + e + k, f, i) {
        if OccursAt(v + e + k, f, i) {
          NotAcross(v, e, k, f, i);
          Assoc3(v, e, k);
          OccursLeft(v, e + k, f, i);
        }
      }
    }
  }

  lemma {:induction false} RowHasNone(x: string, fs: seq<string>, chosen: set<string>, f: string)
    requires Absent(x, f) && IsScheme(f) && AllSchemes(fs) && f !in fs
    ensures Absent(x + Spell(fs, chosen), f)
    decreases fs
  {
    var none := "";
    if fs == [] {
      assert x + none == x;
    } else {
      var row, e := Spell(fs[1..], chosen), if fs[0] in chosen then fs[0] else "";
      RowHasNone(x, fs[1..], chosen, f);
      Assoc3(x, row, e);
      AddsNone(x + row, e, none, f);
      assert Spent(e, none) == e;
    }
  }

  /** In front of its copy a scheme does not reach into it. */
  lemma FirstCopy(v: string, f: string, w: string, i: int)
    requires Shaped(f) && OccursAt(v + f + w, f, i) && i < |v|
    ensures i + |f| <= |v|
  {
    var s, j := v + f + w, i + |f|;
    OccursChar(s, f, i, |f| - 1);
    OccursChar(s, f, i, |f| - 2);
    assert forall n :: |v| <= n < |v| + |f| ==> s[n] == f[n - |v|];
    if j > |v| {
      InnerEnd(f, j - |v|);
    }
  }

  lemma CopyIsFirst(v: string, f: string, w: string)
    requires Absent(v, f) && Shaped(f)
    ensures Index(v + (f + w), f) == |v|
  {
    Assoc3(v, f, w);
    var s := v + f + w;
    assert s[|v|..|v| + |f|] == f;
    forall i | 0 <= i < |v| ensures !OccursAt(s, f, i) {
      if OccursAt(s, f, i) {
        FirstCopy(v, f, w, i);
        OccursLeft(v, f + w, f, i);
      }
    }
    IndexUnique(s, f, |v|);
  }

  /** The step of the scheme in front of what is spent. */
  lemma SpentStep(v: string, f: string, e: string, k: string, fs: seq<string>) returns (k': string)
    requires Absent(v, f) && Shaped(f) && IsSpent(e, k, fs)
    ensures FrontStep(v + (f + Spent(e, k)), f) == v + (f + k') && No('/', k') && No('@', k')
  {
    var w := Spent(e, k);
    k' := SpentStub(e, k, fs);
    CopyIsFirst(v, f, w);
    CopyParts(v, f, w);
    Assoc3(v, f, k');
  }

  lemma CopyParts(v: string, f: string, w: string)
    requires Index(v + (f + w), f) == |v|
    ensures UpTo(v + (f + w), f) == v + f && From(v + (f + w), f) == w
  {
    Assoc3(v, f, w);
  }

  lemma SpentStub(e: string, k: string, fs: seq<string>) returns (k': string)
    requires IsSpent(e, k, fs)
    ensures Stub(Spent(e, k)) == k' && No('/', k') && No('@', k')
  {
    var at := "@";
    if e == "" {
      var colon, u, w := StubIs("");
      k' := "";
      assert !colon && u == "";
    } else {
      SchemeShape(e);
      var u, slashes := e[..|e| - 3], "//";
      assert e == u + ":" + slashes;
      SpentTail(u, slashes, k, at);
      k' := u + ":" + MARK;
      DropLast(k', at);
      PlainMark(u, MARK);
    }
  }

  lemma SpentTail(u: string, slashes: string, k: string, at: string)
    requires No(':', u) && No('@', u) && slashes == "//" && No('@', k) && at == "@"
    ensures UrlTail(u + ":" + slashes + k + at) == u + ":" + MARK + at
  {
    var none := "";
    TailReplaces(u, slashes + k, none);
    assert u + ":" + slashes + k + at == u + ":" + (slashes + k) + at + none;
    assert u + ":" + MARK + at + none == u + ":" + MARK + at;
  }

  lemma PlainMark(u: string, m: string)
    requires No('/', u) && No('@', u) && m == MARK
    ensures No('/', u + ":" + m) && No('@', u + ":" + m)
  {
    forall k | 0 <= k < |m| ensures m[k] != '@' && m[k] != '/' {
      MarkChar(k);
    }
  }

  lemma {:induction false} SpellIgnores(fs: seq<string>, a: set<string>, b: set<string>)
    requires forall f :: f in fs ==> (f in a <==> f in b)
    ensures Spell(fs, a) == Spell(fs, b)
    decreases fs
  {
    if fs != [] {
      SpellIgnores(fs[1..], a, b);
    }
  }

  lemma {:induction false} TakeableIsLater(x: string, fs: seq<string>)
    ensures forall f :: f in Takeable(x, fs) ==> f in fs
    decreases fs
  {
    if fs != [] && !Reaches(x, fs[0]) {
      TakeableIsLater(FrontStep(x, fs[0]), fs[1..]);
      TakeableIsLater(x, fs[1..]);
    }
  }

  /** Every choice among the schemes a password can take is made by some password. */
  lemma {:induction false} ChoiceIsTaken(x: string, fs: seq<string>, chosen: set<string>, e: string, k: string)
    requires AllSchemes(fs) && Distinct(fs) && chosen <= Takeable(x, fs) && IsSpent(e, k, fs)
    ensures Taken(x, Spell(fs, chosen) + Spent(e, k), fs) == chosen
    decreases fs
  {
    TakeableIsLater(x, fs);
    if fs != [] && !Reaches(x, fs[0]) {
      var f, more := fs[0], fs[1..];
      var row, none := Spell(more, chosen), "";
      if Index(x, f) >= 0 {
        TakeableIsLater(FrontStep(x, f), more);
        assert row + none == row;
        ChoiceIsTaken(FrontStep(x, f), more, chosen, e, k);
      } else {
        IndexIsFirst(x, f);
        RowHasNone(x, more, chosen, f);
        TakeableIsLater(x, more);
        if f in chosen {
          ChosenIsTaken(x, fs, chosen, e, k);
        } else {
          assert row + none == row;
          Assoc3(x, row, Spent(e, k));
          AddsNone(x + row, e, k, f);
          IndexIsFirst(x + (row + Spent(e, k)), f);
          ChoiceIsTaken(x, more, chosen, e, k);
        }
      }
    }
  }

  lemma {:induction false} ChosenIsTaken(x: string, fs: seq<string>, chosen: set<string>, e: string, k: string)
    requires AllSchemes(fs) && Distinct(fs) && chosen <= Takeable(x, fs) && IsSpent(e, k, fs)
    requires fs != [] && !Reaches(x, fs[0]) && Index(x, fs[0]) < 0 && fs[0] in chosen
    requires Absent(x + Spell(fs[1..], chosen), fs[0])
    ensures Taken(x, Spell(fs, chosen) + Spent(e, k), fs) == chosen
    decreases fs, 0
  {
    var f, more := fs[0], fs[1..];
    var row := Spell(more, chosen);
    SchemeShape(f);
    var pw := row + f + Spent(e, k);
    var k' := SpentStep(x + row, f, e, k, fs);
    Spelled(x, row, f, Spent(e, k));
    CopyIsFirst(x + row, f, Spent(e, k));
    Spelled(x, row, f, k');
    assert PasswordStep(x, pw, f) == row + f + k' by { DropLeft(x, row + f + k'); }
    var rest := chosen - {f};
    SpellIgnores(more, chosen, rest);
    TakeableIsLater(x, more);
    ChoiceIsTaken(x, more, rest, f, k');
    Assoc3(row, f, k');
    assert chosen == {f} + rest;
  }

  lemma Spelled(x: string, row: string, f: string, w: string)
    ensures x + row + (f + w) == x + (row + f + w)
  {
  }

  // ----- texts without listed prefixes -----

  /** Every listed prefix has one of these. */
  predicate Special(c: char) {
    c == '-' || c == '=' || c == '_' || c == 'A' || c == 'B'
  }

  lemma PrefixIsSpecial(q: Pattern) returns (k: nat)
    requires q in PATTERNS
    ensures k < |q.prefix| && Special(q.prefix[k])
  {
    if q in AWS_PATTERNS || q == Keeping("Bearer ") {
      k := 0;
    } else {
      k := |q.prefix| - 1;
      assert q in KEY_PATTERNS || q in TOKEN_PATTERNS || q in PASSWORD_PATTERNS || q in GITHUB_PATTERNS
             || q in OTHER_PATTERNS;
    }
  }

  ghost predicate Plain(s: string) {
    forall k :: 0 <= k < |s| ==> !Special(s[k]) && s[k] != '@'
  }

  lemma PlainIsFree(s: string)
    requires forall k :: 0 <= k < |s| ==> !Special(s[k])
    ensures NoPrefix(s)
  {
    forall q | q in PATTERNS ensures Absent(s, q.prefix) {
      var k := PrefixIsSpecial(q);
      forall i ensures !OccursAt(s, q.prefix, i) {
        if OccursAt(s, q.prefix, i) {
          OccursChar(s, q.prefix, i, k);
        }
      }
    }
  }

  /** A listed prefix lies in front of the `:`, between it and the `@`, or behind the `@`. */
  lemma PrefixInPart(x: string, pw: string, y: string, q: Pattern, k: int)
    requires EndsColon(x) && StartsAt(y) && Listed(q) && OccursAt(x + pw + y, q.prefix, k)
    ensures OccursAt(x, q.prefix, k) || OccursAt(pw, q.prefix, k - |x|) || OccursAt(y, q.prefix, k - |x + pw|)
  {
    var s, n := x + pw + y, |q.prefix|;
    assert s[|x| - 1] == ':' && s[|x + pw|] == '@';
    if k < |x| <= k + n {
      OccursChar(s, q.prefix, k, |x| - 1 - k);
    } else if k <= |x + pw| < k + n {
      OccursChar(s, q.prefix, k, |x + pw| - k);
    } else if k + n <= |x| {
      Assoc3(x, pw, y);
      OccursLeft(x, pw + y, q.prefix, k);
    } else if k >= |x + pw| {
      OccursRight(x + pw, y, q.prefix, k);
    } else {
      OccursLeft(x + pw, y, q.prefix, k);
      OccursRight(x, pw, q.prefix, k);
    }
  }

  lemma JoinedIsFree(x: string, pw: string, y: string)
    requires EndsColon(x) && StartsAt(y) && NoPrefix(x) && NoPrefix(pw) && NoPrefix(y)
    ensures NoPrefix(x + pw + y)
  {
    forall q | q in PATTERNS ensures Absent(x + pw + y, q.prefix) {
      PatternListed(q);
      forall k ensures !OccursAt(x + pw + y, q.prefix, k) {
        if OccursAt(x + pw + y, q.prefix, k) {
          PrefixInPart(x, pw, y, q, k);
        }
      }
    }
  }

  lemma PlainJoined(x: string, y: string)
    requires Plain(x) && Plain(y)
    ensures Plain(x + y)
  {
  }

  lemma ShapedIsPlain(f: string)
    requires Shaped(f)
    ensures Plain(f)
  {
  }

  lemma {:induction false} SpellIsPlain(fs: seq<string>, chosen: set<string>)
    requires AllSchemes(fs)
    ensures Plain(Spell(fs, chosen))
    decreases fs
  {
    if fs != [] {
      var f := fs[0];
      assert Plain(f) by {
        SchemeShape(f);
        ShapedIsPlain(f);
      }
      SpellIsPlain(fs[1..], chosen);
      PlainJoined(Spell(fs[1..], chosen), if f in chosen then f else "");
    }
  }

  lemma SpellIsFree(fs: seq<string>, chosen: set<string>)
    requires AllSchemes(fs)
    ensures No('@', Spell(fs, chosen)) && NoPrefix(Spell(fs, chosen))
  {
    SpellIsPlain(fs, chosen);
    PlainIsFree(Spell(fs, chosen));
  }

  // ----- when a password does not show -----

  /** Up to the password of the first URL of a scheme. */
  function Front(a: string, scheme: string, u: string): string {
    a + scheme + u + ":"
  }

  /** `scheme` occurs first behind `a`, and the user has no `@`. */
  ghost predicate FirstUrl(a: string, scheme: string, u: string) {
    IsScheme(scheme) && No('@', u) && Index(Front(a, scheme, u), scheme) == |a|
  }

  lemma FirstUrlIs(a: string, scheme: string, u: string)
    requires FirstUrl(a, scheme, u)
    ensures var x := Front(a, scheme, u);
            EndsColon(x) && Reaches(x, scheme) && IsReached(x, ORDER) && AllShaped(ORDER) && AllSchemes(ORDER)
  {
    var x := Front(a, scheme, u);
    assert From(x, scheme) == u + ":";
    OrderIs();
    forall f | f in ORDER ensures Shaped(f) { SchemeShape(f); }
    UrlIsReached(x, scheme, ORDER);
  }

  /** What the password pass makes of the text is told by the schemes the password takes. */
  lemma PassLeavesChoice(a: string, scheme: string, u: string, pw: string, y: string)
    requires FirstUrl(a, scheme, u) && No('@', pw) && StartsAt(y)
    ensures var x := Front(a, scheme, u);
            UrlSteps(x + pw + y, SCHEMES) == FrontEnd(x, ORDER) + Behind(x, y, true, ORDER, Taken(x, pw, ORDER))
  {
    FirstUrlIs(a, scheme, u);
    OrderIs();
    RunHeld(Front(a, scheme, u), pw, y, ORDER);
  }

  /** The pass makes the same of the text behind when the steps of `skip` are left out. */
  ghost predicate Spared(x: string, y: string, skip: set<string>) {
    Behind(x, y, true, ORDER, skip) == Behind(x, y, true, ORDER, {})
  }

  /** Whichever schemes a password takes, the text behind becomes the same. */
  ghost predicate Immune(x: string, y: string) {
    forall skip :: skip <= Takeable(x, ORDER) ==> Spared(x, y, skip)
  }

  ghost predicate SamePass(x: string, y: string, pw: string, pw': string) {
    UrlSteps(x + pw + y, SCHEMES) == UrlSteps(x + pw' + y, SCHEMES)
  }

  lemma SameIff(a: string, scheme: string, u: string, y: string, pw: string, pw': string)
    requires FirstUrl(a, scheme, u) && No('@', pw) && No('@', pw') && StartsAt(y)
    ensures var x := Front(a, scheme, u);
            && (Immune(x, y) ==> SamePass(x, y, pw, pw'))
            && (Taken(x, pw', ORDER) == {} && SamePass(x, y, pw, pw') ==> Spared(x, y, Taken(x, pw, ORDER)))
  {
    var x := Front(a, scheme, u);
    PassLeavesChoice(a, scheme, u, pw, y);
    PassLeavesChoice(a, scheme, u, pw', y);
    TakenIsTakeable(x, pw, ORDER);
    TakenIsTakeable(x, pw', ORDER);
    var t, t' := Taken(x, pw, ORDER), Taken(x, pw', ORDER);
    if Immune(x, y) {
      assert Spared(x, y, t) && Spared(x, y, t');
    }
    if Behind(x, y, true, ORDER, t) != Behind(x, y, true, ORDER, t') {
      TailsDiffer(FrontEnd(x, ORDER), Behind(x, y, true, ORDER, t), Behind(x, y, true, ORDER, t'));
    }
  }

  lemma TailsDiffer(x: string, y: string, z: string)
    requires y != z
    ensures x + y != x + z
  {
    if x + y == x + z {
      DropLeft(x, y);
      DropLeft(x, z);
    }
  }

  /** A password that takes exactly the chosen schemes. */
  lemma ChoicePassword(a: string, scheme: string, u: string, chosen: set<string>) returns (pw: string)
    requires FirstUrl(a, scheme, u) && chosen <= Takeable(Front(a, scheme, u), ORDER)
    ensures No('@', pw) && NoPrefix(pw) && Taken(Front(a, scheme, u), pw, ORDER) == chosen
  {
    FirstUrlIs(a, scheme, u);
    OrderIs();
    pw := Spell(ORDER, chosen);
    SpelledIsTaken(Front(a, scheme, u), ORDER, chosen);
  }

  lemma SpelledIsTaken(x: string, fs: seq<string>, chosen: set<string>)
    requires AllSchemes(fs) && Distinct(fs) && chosen <= Takeable(x, fs)
    ensures var pw := Spell(fs, chosen); No('@', pw) && NoPrefix(pw) && Taken(x, pw, fs) == chosen
  {
    var none := "";
    SpellIsFree(fs, chosen);
    ChoiceIsTaken(x, fs, chosen, none, none);
    assert Spell(fs, chosen) + none == Spell(fs, chosen);
  }

  /** In any text, the password pass hides the password of the first URL of a scheme if and only if
      the text from its `@` on becomes the same whichever takeable schemes are left out. */
  lemma PassHidesExactly(a: string, scheme: string, u: string, h: string)
    requires FirstUrl(a, scheme, u)
    ensures var x, y := Front(a, scheme, u), "@" + h;
            (forall pw, pw' :: No('@', pw) && No('@', pw') ==> SamePass(x, y, pw, pw')) <==> Immune(x, y)
  {
    var x, y := Front(a, scheme, u), "@" + h;
    forall pw, pw' | No('@', pw) && No('@', pw') && Immune(x, y) ensures SamePass(x, y, pw, pw') {
      SameIff(a, scheme, u, y, pw, pw');
    }
    if forall pw, pw' :: No('@', pw) && No('@', pw') ==> SamePass(x, y, pw, pw') {
      forall skip | skip <= Takeable(x, ORDER) ensures Spared(x, y, skip) {
        var pw := ChoicePassword(a, scheme, u, skip);
        var pw' := ChoicePassword(a, scheme, u, {});
        SameIff(a, scheme, u, y, pw, pw');
      }
    }
  }

  ghost predicate SameText(x: string, y: string, pw: string, pw': string) {
    Redact(x + pw + y) == Redact(x + pw' + y)
  }

  ghost predicate IsPassword(pw: string) {
    No('@', pw) && NoPrefix(pw)
  }

  /** No prefix pass has a token open at the end of the text. */
  ghost predicate Closed(x: string, ps: seq<Pattern>)
    decreases ps
  {
    ps == [] || (ps[0].prefix != "" && !L.Open(x, ps[0]) && Closed(Pass(x, ps[0]), ps[1..]))
  }

  lemma NoneAcross(x: string, y: string, q: Pattern)
    requires Listed(q) && (EndsColon(x) || StartsAt(y))
    ensures !L.Straddles(x, y, q.prefix)
  {
    forall k ensures !L.StraddlesAt(x, y, q.prefix, k) {
      if L.StraddlesAt(x, y, q.prefix, k) {
        assert (x + y)[|x| - 1] == x[|x| - 1];
        OccursChar(x + y, q.prefix, k, |x| - 1 - k);
        OccursChar(x + y, q.prefix, k, |x| - k);
      }
    }
  }

  lemma {:induction false} PassKeepsColon(x: string, q: Pattern)
    requires Listed(q) && EndsColon(x) && !L.Open(x, q)
    ensures EndsColon(Pass(x, q))
    decreases |x|
  {
    var i := Index(x, q.prefix);
    if i >= 0 {
      var e := TokenEnd(x, i + |q.prefix|);
      assert e < |x| && !L.Open(x[e..], q);
      var head, tail := x[..i], x[e..];
      EndOf(x[..e], tail);
      assert x == x[..e] + tail;
      PassKeepsColon(tail, q);
      PassAt(x, q, i, e, head, tail);
      EndOf(head + q.replacement, Pass(tail, q));
    }
  }

  lemma PassKeepsAt(y: string, q: Pattern)
    requires Listed(q) && StartsAt(y)
    ensures StartsAt(Pass(y, q))
  {
    var i := Index(y, q.prefix);
    IndexIsFirst(y, q.prefix);
    if i == 0 {
      OccursChar(y, q.prefix, 0, 0);
    } else if i > 0 {
      var e := TokenEnd(y, i + |q.prefix|);
      PassAt(y, q, i, e, y[..i], y[e..]);
      assert Pass(y, q)[0] == y[0];
    }
  }

  /** A pass works on the text in front of the password and behind it. */
  lemma PassAround(x: string, pw: string, y: string, q: Pattern)
    requires Listed(q) && EndsColon(x) && StartsAt(y) && !L.Open(x, q) && Absent(pw, q.prefix)
    ensures Pass(x + pw + y, q) == Pass(x, q) + pw + Pass(y, q)
  {
    Assoc3(x, pw, y);
    NoneAcross(x, pw + y, q);
    L.PassConcat(x, pw + y, q);
    IndexIsFirst(pw, q.prefix);
    NoneAcross(pw, y, q);
    L.PassConcat(pw, y, q);
    Assoc3(Pass(x, q), pw, Pass(y, q));
  }

  lemma {:induction false} PassesAround(x: string, pw: string, y: string, ps: seq<Pattern>)
    requires forall q :: q in ps ==> q.prefix != "" && Listed(q) && Absent(pw, q.prefix)
    requires EndsColon(x) && StartsAt(y) && Closed(x, ps)
    ensures Passes(x + pw + y, ps) == Passes(x, ps) + pw + Passes(y, ps)
    ensures EndsColon(Passes(x, ps)) && StartsAt(Passes(y, ps))
    decreases ps
  {
    if ps != [] {
      var q := ps[0];
      PassAround(x, pw, y, q);
      PassKeepsColon(x, q);
      PassKeepsAt(y, q);
      PassesAround(Pass(x, q), pw, Pass(y, q), ps[1..]);
    }
  }

  function Prefixed(s: string): string {
    PatternsNonEmpty();
    Passes(s, PATTERNS)
  }

  /** Around a password that no prefix pass touches, the passes work on the rest. */
  lemma TextIsPass(x: string, y: string, pw: string)
    requires EndsColon(x) && StartsAt(y) && Closed(x, PATTERNS) && NoPrefix(pw)
    ensures Redact(x + pw + y) == UrlSteps(Prefixed(x) + pw + Prefixed(y), SCHEMES)
    ensures StartsAt(Prefixed(y))
  {
    PatternsNonEmpty();
    forall q | q in PATTERNS ensures Listed(q) { PatternListed(q); }
    PassesAround(x, pw, y, PATTERNS);
  }

  lemma SameTextIff(x: string, a: string, scheme: string, u: string, y: string, pw: string, pw': string)
    requires EndsColon(x) && StartsAt(y) && Closed(x, PATTERNS)
    requires FirstUrl(a, scheme, u) && Prefixed(x) == Front(a, scheme, u) && IsPassword(pw) && IsPassword(pw')
    ensures var x', y' := Prefixed(x), Prefixed(y);
            && (Immune(x', y') ==> SameText(x, y, pw, pw'))
            && (Taken(x', pw', ORDER) == {} && SameText(x, y, pw, pw') ==> Spared(x', y', Taken(x', pw, ORDER)))
  {
    TextIsPass(x, y, pw);
    TextIsPass(x, y, pw');
    SameIff(a, scheme, u, Prefixed(y), pw, pw');
  }

  /** The output does not depend on the password. */
  ghost predicate Hidden(x: string, y: string) {
    forall pw, pw' :: IsPassword(pw) && IsPassword(pw') ==> SameText(x, y, pw, pw')
  }

  lemma HiddenSpares(x: string, y: string, a: string, scheme: string, u: string, skip: set<string>)
    requires EndsColon(x) && StartsAt(y) && Closed(x, PATTERNS)
    requires FirstUrl(a, scheme, u) && Prefixed(x) == Front(a, scheme, u)
    requires Hidden(x, y) && skip <= Takeable(Prefixed(x), ORDER)
    ensures Spared(Prefixed(x), Prefixed(y), skip)
  {
    var pw := ChoicePassword(a, scheme, u, skip);
    var pw' := ChoicePassword(a, scheme, u, {});
    assert SameText(x, y, pw, pw');
    SameTextIff(x, a, scheme, u, y, pw, pw');
  }

  /** The same for the whole redaction: wherever no prefix pass has a token open at the password, and
      for the passwords without a listed prefix. */
  lemma PasswordHiddenExactly(x: string, y: string, a: string, scheme: string, u: string)
    requires EndsColon(x) && StartsAt(y) && Closed(x, PATTERNS)
    requires FirstUrl(a, scheme, u) && Prefixed(x) == Front(a, scheme, u)
    ensures Hidden(x, y) <==> Immune(Prefixed(x), Prefixed(y))
  {
    forall pw, pw' | IsPassword(pw) && IsPassword(pw') && Immune(Prefixed(x), Prefixed(y)) ensures SameText(x, y, pw, pw') {
      SameTextIff(x, a, scheme, u, y, pw, pw');
    }
    forall skip | Hidden(x, y) && skip <= Takeable(Prefixed(x), ORDER) ensures Spared(Prefixed(x), Prefixed(y), skip) {
      HiddenSpares(x, y, a, scheme, u, skip);
    }
  }

  // ----- when it is hidden for sure -----

  lemma FreeIsPass(x: string, y: string, pw: string)
    requires EndsColon(x) && StartsAt(y) && NoPrefix(x) && NoPrefix(y) && NoPrefix(pw)
    ensures Redact(x + pw + y) == UrlSteps(x + pw + y, SCHEMES)
  {
    JoinedIsFree(x, pw, y);
    RedactIs(x + pw + y);
    OrderIs();
  }

  /** A password without `/` takes no scheme. */
  lemma {:induction false} NothingTaken(x: string, pw: string, fs: seq<string>)
    requires No('/', pw) && AllShaped(fs)
    ensures Taken(x, pw, fs) == {}
    decreases fs
  {
    if fs != [] && !Reaches(x, fs[0]) {
      if Index(x, fs[0]) >= 0 {
        NothingTaken(FrontStep(x, fs[0]), pw, fs[1..]);
      } else {
        EndsWithSlash(x, pw, fs[0]);
        NothingTaken(x, pw, fs[1..]);
      }
    }
  }

  lemma EndsWithSlash(x: string, pw: string, f: string)
    requires No('/', pw) && Shaped(f) && Index(x, f) < 0
    ensures Index(x + pw, f) < 0
  {
    IndexIsFirst(x, f);
    IndexIsFirst(x + pw, f);
    var k := Index(x + pw, f);
    if k >= 0 {
      assert forall j :: |x| <= j < |x + pw| ==> (x + pw)[j] == pw[j - |x|];
      OccursChar(x + pw, f, k, |f| - 1);
      OccursLeft(x, pw, f, k);
    }
  }

  /** Where no URL follows, nothing is left out. */
  lemma {:induction false} BehindIdle(x: string, y: string, held: bool, fs: seq<string>, skip: set<string>)
    requires forall f :: f in fs ==> Absent(y, f)
    ensures Behind(x, y, held, fs, skip) == y
    decreases fs
  {
    if fs != [] {
      var f, more := fs[0], fs[1..];
      IndexIsFirst(y, f);
      if Index(x, f) >= 0 {
        BehindIdle(FrontStep(x, f), y, held && !No('@', From(x, f)), more, skip);
      } else {
        BehindIdle(x, y, held, more, skip);
      }
    }
  }

  /** The password of the first `https` URL never shows, nor one without `/`, nor one behind which
      no URL follows. */
  lemma PasswordIsHidden(a: string, scheme: string, u: string, pw: string, pw': string, h: string)
    requires FirstUrl(a, scheme, u) && No('@', pw) && No('@', pw')
    requires scheme == "https://" || (No('/', pw) && No('/', pw')) || forall f :: IsScheme(f) ==> Absent("@" + h, f)
    ensures var x, y := Front(a, scheme, u), "@" + h;
            && SamePass(x, y, pw, pw')
            && (NoPrefix(x) && NoPrefix(y) && NoPrefix(pw) && NoPrefix(pw') ==> SameText(x, y, pw, pw'))
  {
    var x, y := Front(a, scheme, u), "@" + h;
    if NoPrefix(x) && NoPrefix(y) && NoPrefix(pw) && NoPrefix(pw') {
      FreeIsPass(x, y, pw);
      FreeIsPass(x, y, pw');
    }
    FirstUrlIs(a, scheme, u);
    OrderIs();
    PassLeavesChoice(a, scheme, u, pw, y);
    PassLeavesChoice(a, scheme, u, pw', y);
    if scheme == "https://" {
      assert ORDER[0] == scheme;
    } else if No('/', pw) && No('/', pw') {
      NothingTaken(x, pw, ORDER);
      NothingTaken(x, pw', ORDER);
    } else {
      BehindIdle(x, y, true, ORDER, Taken(x, pw, ORDER));
      BehindIdle(x, y, true, ORDER, Taken(x, pw', ORDER));
    }
  }

  // ----- a later URL whose password shows -----

  /** A text whose one `//` is that of another scheme. */
  lemma OtherScheme(s: string, at: nat, e: string, f: string)
    requires IsScheme(e) && IsScheme(f) && e != f
    requires forall k :: 0 <= k < |s| - 1 && s[k] == '/' && s[k + 1] == '/' ==> k == at
    requires at >= 5 && at < |s| && s[at - 5..at - 1] == e[|e| - 7..|e| - 3]
    ensures Absent(s, f)
  {
    SchemeShape(f);
    SchemeShape(e);
    forall k ensures !OccursAt(s, f, k) {
      if OccursAt(s, f, k) {
        SlashesOf(s, f, k);
        SchemesDiffer(e, f);
      }
    }
  }

  lemma SlashesOf(s: string, f: string, k: int)
    requires Shaped(f) && OccursAt(s, f, k)
    ensures var at := k + |f| - 2;
            5 <= at < |s| - 1 && s[at] == '/' && s[at + 1] == '/' && s[at - 5..at - 1] == f[|f| - 7..|f| - 3]
  {
    OccursChar(s, f, k, |f| - 2);
    OccursChar(s, f, k, |f| - 1);
    SliceOfSlice(s, k, k + |f|, |f| - 7, |f| - 3);
  }

  lemma {:induction false} RestIdle(x: string, y: string, held: bool, fs: seq<string>, skip: set<string>)
    requires forall f :: f in fs ==> Absent(x, f) && Absent(y, f)
    ensures Behind(x, y, held, fs, skip) == y && FrontEnd(x, fs) == x
    decreases fs
  {
    if fs != [] {
      var f, more := fs[0], fs[1..];
      IndexIsFirst(x, f);
      IndexIsFirst(y, f);
      var r := FrontStep(x, f);
      assert r == x;
      RestIdle(x, y, held, more, skip);
    }
  }

  /** A URL with the later password in it. */
  function LaterUrl(w: string): string {
    "@d https://x:" + w + "@z"
  }

  lemma LaterIndex(front: string, rest: string, f: string)
    requires front == "@d https://" && f == "https://"
    ensures Index(front + rest, f) == 3
  {
    var y := front + rest;
    assert y[3..11] == f;
    forall k | 0 <= k < 3 ensures !OccursAt(y, f, k) {
      if OccursAt(y, f, k) {
        OccursChar(y, f, k, 6);
      }
    }
    IndexUnique(y, f, 3);
  }

  lemma LaterStep(w: string, y: string, f: string, m: string)
    requires No('@', w) && No('/', w) && f == "https://" && m == MARK && y == LaterUrl(w)
    ensures UrlStep(y, f) == LaterUrl(m)
  {
    var front, u, h := "@d https://", "x", "z";
    var rest := u + ":" + w + "@" + h;
    assert y == front + rest;
    LaterIndex(front, rest, f);
    StepIs(y, f, front, rest);
    TailReplaces(u, w, h);
    assert front + (u + ":" + m + "@" + h) == LaterUrl(m);
  }

  lemma LaterHasNone(w: string, f: string, e: string)
    requires No('/', w) && IsScheme(f) && f != e && e == "https://"
    ensures Absent(LaterUrl(w), f)
  {
    var y := LaterUrl(w);
    assert forall k :: 13 <= k < 13 + |w| ==> y[k] == w[k - 13];
    assert y[4..8] == e[1..5];
    OtherScheme(y, 9, e, f);
  }

  lemma FrontHasNone(x: string, m: string, f: string, e: string)
    requires x == "http://a:" && (m == "" || m == MARK) && IsScheme(f) && f != e && e == "http://"
    ensures Absent(x + m, f)
  {
    var s := x + m;
    forall k | 9 <= k < |s| ensures s[k] != '/' {
      assert s[k] == m[k - 9];
      MarkChar(k - 9);
    }
    assert s[0..4] == e[0..4];
    OtherScheme(s, 5, e, f);
  }

  lemma FrontReaches(x: string, m: string, e: string)
    requires x == "http://a:" && m == MARK && e == "http://"
    ensures Reaches(x, e) && FrontStep(x, e) == x + m
  {
    assert x[0..7] == e;
    IndexUnique(x, e, 0);
    var u, none, at := "a", "", "@";
    assert From(x, e) == u + ":" && UpTo(x, e) == e;
    TailReplaces(u, none, none);
    assert u + ":" + none + at + none == u + ":" + at;
    assert u + ":" + m + at + none == u + ":" + m + at;
    DropLast(u + ":" + m, at);
  }

  /** Behind the two web schemes nothing happens any more. */
  lemma LaterIdle(x: string, w: string, m: string, e: string, g: string, skip: set<string>, fs: seq<string>)
    requires x == "http://a:" && m == MARK && e == "http://" && g == "https://" && No('/', w)
    requires AllSchemes(fs) && Distinct(fs) && |fs| > 0 && fs[0] == e && g !in fs
    ensures Behind(x, LaterUrl(w), true, fs, skip) == LaterUrl(w) && FrontEnd(x, fs) == x + m
  {
    FrontReaches(x, m, e);
    forall f | f in fs[1..] ensures Absent(x + m, f) && Absent(LaterUrl(w), f) {
      FrontHasNone(x, m, f, e);
      LaterHasNone(w, f, g);
    }
    RestIdle(x + m, LaterUrl(w), false, fs[1..], skip);
  }

  lemma LaterBehind(x: string, w: string, m: string, e: string, g: string, skip: set<string>, fs: seq<string>)
    requires x == "http://a:" && m == MARK && e == "http://" && g == "https://" && No('/', w) && No('@', w)
    requires AllSchemes(fs) && Distinct(fs) && |fs| > 1 && fs[0] == g && fs[1] == e
    ensures Behind(x, LaterUrl(w), true, fs, skip) == LaterUrl(if g in skip then w else m)
    ensures FrontEnd(x, fs) == x + m && Index(x, g) < 0
  {
    var none := "";
    FrontHasNone(x, none, g, e);
    assert x + none == x;
    IndexIsFirst(x, g);
    var r := FrontStep(x, g);
    assert r == x;
    LaterStep(w, LaterUrl(w), g, m);
    NoSlashInMark(m);
    LaterIdle(x, if g in skip then w else m, m, e, g, skip, fs[1..]);
  }

  lemma NoSlashInMark(m: string)
    requires m == MARK
    ensures No('/', m)
  {
    forall k | 0 <= k < |m| ensures m[k] != '/' {
      MarkChar(k);
    }
  }

  lemma TakesOne(x: string, pw: string, e: string, g: string, fs: seq<string>)
    requires |fs| > 1 && fs[0] == g && fs[1] == e
    requires Index(x, g) < 0 && Index(x + pw, g) >= 0 && Reaches(x, e)
    ensures Taken(x, pw, fs) == {g}
  {
    assert !Reaches(x, g);
    assert fs[1..][0] == e;
    assert Taken(x, PasswordStep(x, pw, g), fs[1..]) == {};
  }

  lemma LaterIsFree(w: string)
    requires NoPrefix(w)
    ensures NoPrefix(LaterUrl(w)) && StartsAt(LaterUrl(w))
  {
    var front, back := "@d https://x:", "@z";
    LaterPart(front);
    LaterPart(back);
    JoinedIsFree(front, w, back);
  }

  lemma LaterPart(s: string)
    requires s == "@d https://x:" || s == "@z"
    ensures NoPrefix(s)
  {
    PlainIsFree(s);
  }

  lemma FirstIs(x: string, a: string, e: string, u: string)
    requires x == "http://a:" && a == "" && e == "http://" && u == "a"
    ensures FirstUrl(a, e, u) && Front(a, e, u) == x
  {
    assert a + e + u + ":" == x;
    assert x[0..7] == e;
    IndexUnique(x, e, 0);
  }

  lemma OrderStarts(fs: seq<string>, e: string, g: string)
    requires fs == ORDER && e == "http://" && g == "https://"
    ensures AllSchemes(fs) && AllShaped(fs) && Distinct(fs) && |fs| > 1 && fs[0] == g && fs[1] == e
  {
    OrderIs();
    forall f | f in fs ensures Shaped(f) { SchemeShape(f); }
  }

  lemma LaterPass(x: string, pw: string, w: string, m: string, e: string, g: string)
    requires x == "http://a:" && m == MARK && e == "http://" && g == "https://"
    requires No('/', w) && No('@', w) && No('@', pw)
    ensures UrlSteps(x + pw + LaterUrl(w), SCHEMES) == x + m + LaterUrl(if g in Taken(x, pw, ORDER) then w else m)
  {
    var none, a := "", "a";
    FirstIs(x, none, e, a);
    PassLeavesChoice(none, e, a, pw, LaterUrl(w));
    var fs := ORDER;
    OrderStarts(fs, e, g);
    LaterBehind(x, w, m, e, g, Taken(x, pw, fs), fs);
  }

  lemma LaterText(x: string, pw: string, w: string, m: string, e: string, g: string)
    requires x == "http://a:" && m == MARK && e == "http://" && g == "https://"
    requires No('/', w) && No('@', w) && NoPrefix(w) && No('@', pw) && NoPrefix(pw)
    ensures Redact(x + pw + LaterUrl(w)) == x + m + LaterUrl(if g in Taken(x, pw, ORDER) then w else m)
  {
    assert UrlSteps(x + pw + LaterUrl(w), SCHEMES) == x + m + LaterUrl(if g in Taken(x, pw, ORDER) then w else m) by {
      LaterPass(x, pw, w, m, e, g);
    }
    WebFrontIsFree(x);
    LaterIsFree(w);
    FreeIsPass(x, LaterUrl(w), pw);
  }

  lemma WebFrontIsFree(x: string)
    requires x == "http://a:"
    ensures NoPrefix(x) && EndsColon(x)
  {
    PlainIsFree(x);
  }

  lemma LaterTaken(x: string, pw: string, pw': string, m: string, e: string, g: string, fs: seq<string>)
    requires x == "http://a:" && m == MARK && e == "http://" && g == "https://"
    requires pw == "https://b:c" && pw' == "p" && fs == ORDER
    ensures Taken(x, pw, fs) == {g} && Taken(x, pw', fs) == {}
  {
    var none := "";
    OrderStarts(fs, e, g);
    NothingTaken(x, pw', fs);
    FrontHasNone(x, none, g, e);
    assert x + none == x;
    IndexIsFirst(x, g);
    HttpsInside(x, pw, g);
    FrontReaches(x, m, e);
    TakesOne(x, pw, e, g, fs);
  }

  lemma HttpsInside(x: string, pw: string, g: string)
    requires |x| == 9 && pw == "https://b:c" && g == "https://"
    ensures Index(x + pw, g) >= 0
  {
    assert (x + pw)[9..17] == g;
    assert OccursAt(x + pw, g, 9);
    IndexIsFirst(x + pw, g);
  }

  lemma PlainPassword(pw: string)
    requires pw == "https://b:c" || pw == "p"
    ensures IsPassword(pw)
  {
    PlainIsFree(pw);
  }

  lemma LaterOutputs(x: string, pw: string, pw': string, w: string, m: string, e: string, g: string)
    requires x == "http://a:" && pw == "https://b:c" && pw' == "p"
    requires m == MARK && e == "http://" && g == "https://"
    requires No('@', w) && No('/', w) && NoPrefix(w)
    ensures Redact(x + pw + LaterUrl(w)) == x + m + LaterUrl(w)
    ensures Redact(x + pw' + LaterUrl(w)) == x + m + LaterUrl(m)
  {
    LaterTaken(x, pw, pw', m, e, g, ORDER);
    PlainPassword(pw);
    PlainPassword(pw');
    LaterText(x, pw, w, m, e, g);
    LaterText(x, pw', w, m, e, g);
  }

  /** The step for `https://` is spent on a password that contains this scheme, and the later password
      is left as it is; behind another password it is replaced. */
  lemma LaterPasswordShows(w: string)
    requires No('@', w) && No('/', w) && NoPrefix(w)
    ensures Redact("http://a:" + "https://b:c" + ("@d https://x:" + w + "@z"))
         == "http://a:" + "[REDACTED]" + ("@d https://x:" + w + "@z")
    ensures Redact("http://a:" + "p" + ("@d https://x:" + w + "@z"))
         == "http://a:" + "[REDACTED]" + ("@d https://x:" + "[REDACTED]" + "@z")
  {
    LaterOutputs("http://a:", "https://b:c", "p", w, "[REDACTED]", "http://", "https://");
  }
}
