/** What `Redact` guarantees about every input: no listed prefix is left with a token behind it. */
module RedactionSafety {
  import opened Text
  import opened Redaction

  /** The pattern keeps its prefix and only the token behind it is rewritten. */
  predicate Keeps(p: Pattern) {
    p.replacement == p.prefix + MARK
  }

  /** The bytes of the two markers. */
  predicate MarkerChar(c: char) {
    || c == '[' || c == ']' || c == 'A' || c == 'W' || c == 'S' || c == '_' || c == 'K'
    || c == 'E' || c == 'Y' || c == 'R' || c == 'D' || c == 'C' || c == 'T'
  }

  predicate Punctuation(c: char) {
    c == '[' || c == ']' || c == ':' || c == '@'
  }

  /** What the proofs need of a listed pattern: the prefix is free of the marker's and the
      URL's punctuation, starts a token, and cannot lie inside a marker. */
  ghost predicate Listed(p: Pattern) {
    && p.prefix != "" && !IsDelim(p.prefix[0])
    && (forall k :: 0 <= k < |p.prefix| ==> !Punctuation(p.prefix[k]))
    && (exists k :: 0 <= k < |p.prefix| && !MarkerChar(p.prefix[k]))
    && (Keeps(p) || p == Pattern(AWS_PREFIX, AWS_MARK))
  }

  lemma ListedBy(prefix: string)
    requires prefix != "" && !IsDelim(prefix[0]) && !MarkerChar(prefix[0])
    requires forall k :: 0 <= k < |prefix| ==> !Punctuation(prefix[k])
    ensures Listed(Keeping(prefix))
  {
  }

  lemma KeyPatternListed(p: Pattern)
    requires p in KEY_PATTERNS
    ensures Listed(p)
  {
    if p == Keeping("sk-") {
      ListedBy("sk-");
    } else {
      ListedBy("Bearer ");
    }
  }

  lemma TokenPatternListed(p: Pattern)
    requires p in TOKEN_PATTERNS
    ensures Listed(p)
  {
    if p == Keeping("token=") {
      ListedBy("token=");
    } else if p == Keeping("api_key=") {
      ListedBy("api_key=");
    } else if p == Keeping("apikey=") {
      ListedBy("apikey=");
    } else {
      ListedBy("access_token=");
    }
  }

  lemma PasswordPatternListed(p: Pattern)
    requires p in PASSWORD_PATTERNS
    ensures Listed(p)
  {
    if p == Keeping("secret=") {
      ListedBy("secret=");
    } else if p == Keeping("password=") {
      ListedBy("password=");
    } else {
      ListedBy("passwd=");
    }
  }

  lemma GithubPatternListed(p: Pattern)
    requires p in GITHUB_PATTERNS
    ensures Listed(p)
  {
    if p == Keeping("ghp_") {
      ListedBy("ghp_");
    } else if p == Keeping("gho_") {
      ListedBy("gho_");
    } else if p == Keeping("ghu_") {
      ListedBy("ghu_");
    } else if p == Keeping("ghs_") {
      ListedBy("ghs_");
    } else {
      ListedBy("ghr_");
    }
  }

  lemma OtherPatternListed(p: Pattern)
    requires p in OTHER_PATTERNS
    ensures Listed(p)
  {
    if p == Keeping("npm_") {
      ListedBy("npm_");
    } else if p == Keeping("xoxb-") {
      ListedBy("xoxb-");
    } else if p == Keeping("xoxp-") {
      ListedBy("xoxp-");
    } else {
      ListedBy("xoxs-");
    }
  }

  lemma PatternListed(p: Pattern)
    requires p in PATTERNS
    ensures Listed(p)
  {
    if p in KEY_PATTERNS {
      KeyPatternListed(p);
    } else if p in TOKEN_PATTERNS {
      TokenPatternListed(p);
    } else if p in PASSWORD_PATTERNS {
      PasswordPatternListed(p);
    } else if p in AWS_PATTERNS {
      assert !MarkerChar(p.prefix[2]);
    } else if p in GITHUB_PATTERNS {
      GithubPatternListed(p);
    } else {
      OtherPatternListed(p);
    }
  }

  /** The marker stands at `k`, and the token ends with it. */
  ghost predicate MarkedAt(s: string, k: int) {
    OccursAt(s, MARK, k) && (k + |MARK| == |s| || IsDelim(s[k + |MARK|]))
  }

  /** Every occurrence of the prefix is directly followed by the marker and the end of the
      token; a pattern that drops its prefix does not occur at all. */
  ghost predicate Safe(s: string, p: Pattern) {
    forall i :: OccursAt(s, p.prefix, i) ==> Keeps(p) && MarkedAt(s, i + |p.prefix|)
  }

  lemma MarkChar(k: nat)
    requires k < |MARK|
    ensures MarkerChar(MARK[k]) && !IsDelim(MARK[k]) && (0 < k < |MARK| - 1 ==> !Punctuation(MARK[k]))
  {
  }

  lemma AwsMarkChar(k: nat)
    requires k < |AWS_MARK|
    ensures MarkerChar(AWS_MARK[k]) && !IsDelim(AWS_MARK[k])
  {
  }

  /** A listed prefix that occurs next to a bracketed run of marker bytes lies wholly before
      it or wholly behind it. */
  lemma NoStraddle(t: string, p: Pattern, i: int, open: int, close: int)
    requires Listed(p) && OccursAt(t, p.prefix, i)
    requires 0 <= open <= close < |t| && t[open] == '[' && t[close] == ']'
    requires forall j :: open <= j <= close ==> MarkerChar(t[j])
    ensures i + |p.prefix| <= open || close < i
  {
    var n := |p.prefix|;
    var k :| 0 <= k < n && !MarkerChar(p.prefix[k]);
    OccursChar(t, p.prefix, i, k);
    if i <= open < i + n {
      OccursChar(t, p.prefix, i, open - i);
    } else if i <= close < i + n {
      OccursChar(t, p.prefix, i, close - i);
    }
  }

  lemma NoStraddleMark(t: string, p: Pattern, i: int, at: int)
    requires Listed(p) && OccursAt(t, p.prefix, i) && OccursAt(t, MARK, at)
    ensures i + |p.prefix| <= at || at + |MARK| <= i
  {
    forall j | at <= j < at + |MARK| ensures t[j] == MARK[j - at] && MarkerChar(t[j]) {
      OccursChar(t, MARK, at, j - at);
      MarkChar(j - at);
    }
    NoStraddle(t, p, i, at, at + |MARK| - 1);
  }

  /** Safety reads only forward: what follows a cut is as safe as the whole. */
  lemma SafeSuffix(s: string, e: nat, p: Pattern)
    requires e <= |s| && Safe(s, p)
    ensures Safe(s[e..], p)
  {
    assert s == s[..e] + s[e..];
    forall i | OccursAt(s[e..], p.prefix, i) ensures Keeps(p) && MarkedAt(s[e..], i + |p.prefix|) {
      OccursRight(s[..e], s[e..], p.prefix, e + i);
      assert OccursAt(s, p.prefix, e + i);
      OccursRight(s[..e], s[e..], MARK, e + i + |p.prefix|);
    }
  }

  lemma TokenEndSpec(s: string, from: nat)
    requires from <= |s|
    ensures var e := TokenEnd(s, from);
            Boundary(s[e..]) && forall k :: from <= k < e ==> !IsDelim(s[k])
    decreases |s| - from
  {
    if from < |s| && !IsDelim(s[from]) {
      TokenEndSpec(s, from + 1);
    }
  }

  /** A pass never moves the delimiter that the remaining text starts with. */
  lemma PassBoundary(s: string, p: Pattern)
    requires Listed(p) && Boundary(s)
    ensures Boundary(Pass(s, p))
  {
    var i := Index(s, p.prefix);
    IndexIsFirst(s, p.prefix);
    if i == 0 {
      OccursChar(s, p.prefix, 0, 0);
    }
  }

  /** The text a pass leaves behind one rewritten token: what was before it, the
      replacement, and the rewritten remainder. */
  lemma ReplacementShape(q: Pattern)
    requires Listed(q)
    ensures var h := |q.replacement| - |if Keeps(q) then MARK else AWS_MARK|;
            && 0 <= h < |q.replacement|
            && (Keeps(q) ==> h == |q.prefix| && OccursAt(q.replacement, MARK, h) && q.replacement[..h] == q.prefix)
            && (!Keeps(q) ==> h == 0)
            && q.replacement[h] == '[' && q.replacement[|q.replacement| - 1] == ']'
            && forall j :: h <= j < |q.replacement| ==> MarkerChar(q.replacement[j])
  {
    var m := if Keeps(q) then MARK else AWS_MARK;
    var h := |q.replacement| - |m|;
    forall j | h <= j < |q.replacement| ensures q.replacement[j] == m[j - h] && MarkerChar(q.replacement[j]) {
      if Keeps(q) { MarkChar(j - h); } else { AwsMarkChar(j - h); }
    }
  }

  /** Where a listed prefix can occur in `a + q.replacement + b`. */
  lemma OccursAroundReplacement(a: string, q: Pattern, b: string, p: Pattern, i: int)
    requires Listed(p) && Listed(q) && OccursAt(a + q.replacement + b, p.prefix, i)
    ensures var h := if Keeps(q) then |q.prefix| else 0;
            i + |p.prefix| <= |a| + h || |a| + |q.replacement| <= i
  {
    ReplacementShape(q);
    var t := a + q.replacement + b;
    var h := if Keeps(q) then |q.prefix| else 0;
    forall j | |a| <= j < |a| + |q.replacement| ensures t[j] == q.replacement[j - |a|] {
    }
    NoStraddle(t, p, i, |a| + h, |a| + |q.replacement| - 1);
  }

  /** The replacement of a kept prefix ends its token. */
  lemma MarkedByReplacement(a: string, q: Pattern, b: string)
    requires Keeps(q) && Boundary(b)
    ensures MarkedAt(a + q.replacement + b, |a| + |q.prefix|)
  {
    var t := a + q.replacement + b;
    assert t == (a + q.prefix) + (MARK + b);
    assert t[|a| + |q.prefix|..|a| + |q.prefix| + |MARK|] == MARK;
  }

  /** An occurrence before the first rewritten token was already there. */
  lemma OccursBefore(s: string, q: Pattern, p: Pattern, i: nat, rest: string, o: int)
    requires Listed(q) && OccursAt(s, q.prefix, i)
    requires OccursAt(s[..i] + q.replacement + rest, p.prefix, o)
    requires o + |p.prefix| <= i + if Keeps(q) then |q.prefix| else 0
    ensures OccursAt(s, p.prefix, o)
  {
    var kept := if Keeps(q) then s[..i] + q.prefix else s[..i];
    var more := if Keeps(q) then MARK + rest else q.replacement + rest;
    assert s[..i] + q.replacement + rest == kept + more;
    OccursLeft(kept, more, p.prefix, o);
    assert s == kept + s[|kept|..];
    OccursLeft(kept, s[|kept|..], p.prefix, o);
  }

  /** A marked token in front of the first rewritten one keeps its marker. */
  lemma MarkedBefore(s: string, q: Pattern, i: nat, rest: string, m: int)
    requires Listed(q) && OccursAt(s, q.prefix, i)
    requires MarkedAt(s, m) && m < i + |q.prefix|
    ensures MarkedAt(s[..i] + q.replacement + rest, m)
  {
    var more := q.replacement + rest;
    assert s[..i] + q.replacement + rest == s[..i] + more;
    NoStraddleMark(s, q, i, m);
    OccursChar(s, q.prefix, i, 0);
    assert s == s[..i] + s[i..];
    OccursLeft(s[..i], s[i..], MARK, m);
    OccursLeft(s[..i], more, MARK, m);
  }

  /** In the source text, such an occurrence is the rewritten one or an earlier, safe one. */
  lemma SafeSource(s: string, q: Pattern, p: Pattern, i: nat, o: int)
    requires p.prefix != "" && i == Index(s, q.prefix) && OccursAt(s, p.prefix, o)
    requires p == q || Safe(s, p)
    requires o + |p.prefix| <= i + if Keeps(q) then |q.prefix| else 0
    ensures Keeps(p)
    ensures o + |p.prefix| < i + |q.prefix| ==> MarkedAt(s, o + |p.prefix|)
    ensures o + |p.prefix| == i + |q.prefix| ==> Keeps(q)
  {
    if p == q {
      assert i <= o by { IndexIsFirst(s, q.prefix); }
    } else {
      assert Keeps(p) && MarkedAt(s, o + |p.prefix|);
    }
  }

  lemma SafeBefore(s: string, q: Pattern, p: Pattern, i: nat, rest: string, o: int)
    requires Listed(p) && Listed(q) && i == Index(s, q.prefix) && Boundary(rest)
    requires p == q || Safe(s, p)
    requires OccursAt(s[..i] + q.replacement + rest, p.prefix, o)
    requires o + |p.prefix| <= i + if Keeps(q) then |q.prefix| else 0
    ensures Keeps(p) && MarkedAt(s[..i] + q.replacement + rest, o + |p.prefix|)
  {
    assert OccursAt(s, q.prefix, i) by { IndexIsFirst(s, q.prefix); }
    assert OccursAt(s, p.prefix, o) by { OccursBefore(s, q, p, i, rest, o); }
    SafeSource(s, q, p, i, o);
    MarkedUpTo(s, q, i, rest, o + |p.prefix|);
  }

  lemma MarkedUpTo(s: string, q: Pattern, i: nat, rest: string, m: int)
    requires Listed(q) && OccursAt(s, q.prefix, i) && Boundary(rest) && m <= i + |q.prefix|
    requires if m < i + |q.prefix| then MarkedAt(s, m) else Keeps(q)
    ensures MarkedAt(s[..i] + q.replacement + rest, m)
  {
    if m < i + |q.prefix| {
      MarkedBefore(s, q, i, rest, m);
    } else {
      MarkedByReplacement(s[..i], q, rest);
    }
  }

  lemma SafeBehind(head: string, rest: string, p: Pattern, o: int)
    requires Safe(rest, p) && OccursAt(head + rest, p.prefix, o) && |head| <= o
    ensures Keeps(p) && MarkedAt(head + rest, o + |p.prefix|)
  {
    OccursRight(head, rest, p.prefix, o);
    OccursRight(head, rest, MARK, o + |p.prefix|);
  }

  lemma SafeAfterStep(s: string, q: Pattern, p: Pattern, i: nat, rest: string)
    requires Listed(p) && Listed(q) && i == Index(s, q.prefix) && Boundary(rest)
    requires (p == q || Safe(s, p)) && Safe(rest, p)
    ensures Safe(s[..i] + q.replacement + rest, p)
  {
    var head := s[..i] + q.replacement;
    forall o | OccursAt(head + rest, p.prefix, o)
      ensures Keeps(p) && MarkedAt(head + rest, o + |p.prefix|)
    {
      OccursAroundReplacement(s[..i], q, rest, p, o);
      if |head| <= o {
        SafeBehind(head, rest, p, o);
      } else {
        SafeBefore(s, q, p, i, rest, o);
      }
    }
  }

  /** One pass makes its own pattern safe and keeps every other listed pattern safe. */
  lemma {:induction false} SafeAfterPass(s: string, q: Pattern, p: Pattern)
    requires Listed(p) && Listed(q)
    requires p == q || Safe(s, p)
    ensures Safe(Pass(s, q), p)
    decreases |s|
  {
    var i := Index(s, q.prefix);
    if i < 0 {
      IndexIsFirst(s, q.prefix);
    } else {
      var e := TokenEnd(s, i + |q.prefix|);
      var rest := Pass(s[e..], q);
      assert Safe(rest, p) by {
        if p != q {
          SafeSuffix(s, e, p);
        }
        SafeAfterPass(s[e..], q, p);
      }
      assert Boundary(rest) by {
        TokenEndSpec(s, i + |q.prefix|);
        PassBoundary(s[e..], q);
      }
      assert Pass(s, q) == s[..i] + q.replacement + rest by {
        PassAt(s, q, i, e, s[..i], s[e..]);
      }
      SafeAfterStep(s, q, p, i, rest);
    }
  }

  lemma {:induction false} SafeAfterPasses(s: string, ps: seq<Pattern>, p: Pattern)
    requires forall q :: q in ps ==> q.prefix != "" && Listed(q)
    requires Listed(p) && (p in ps || Safe(s, p))
    ensures Safe(Passes(s, ps), p)
    decreases ps
  {
    if ps != [] {
      if p == ps[0] || Safe(s, p) {
        SafeAfterPass(s, ps[0], p);
      }
      SafeAfterPasses(Pass(s, ps[0]), ps[1..], p);
    }
  }

  // ----- the URL pass -----

  /** A URL rewrite cuts the text at a `:` and an `@` and puts the marker in between. */
  lemma UrlPieces(s: string, base: nat, a: nat, c: nat, sep: string, mark: string)
    requires base + a <= |s| && c <= a
    ensures s[..base] + (s[base..][..a][..c] + sep + mark) + s[base..][a..]
         == s[..base + c] + (sep + mark) + s[base + a..]
  {
    assert s[..base] + s[base..][..a][..c] == s[..base + c];
    assert s[base..][a..] == s[base + a..];
  }

  lemma UrlStepAt(s: string, scheme: string, a: nat, c: nat)
    requires Index(s, scheme) >= 0
    requires var rest := s[Index(s, scheme) + |scheme|..]; Index(rest, "@") == a && Index(rest[..a], ":") == c
    ensures var base := Index(s, scheme) + |scheme|;
            UrlStep(s, scheme) == s[..base + c] + (":" + MARK) + s[base + a..]
  {
    var base := Index(s, scheme) + |scheme|;
    var rest := s[base..];
    assert UrlStep(s, scheme) == s[..base] + (rest[..a][..c] + ":" + MARK) + rest[a..];
    UrlPieces(s, base, a, c, ":", MARK);
  }

  lemma SeparatorAt(s: string, sep: string, i: nat)
    requires |sep| == 1 && Index(s, sep) == i
    ensures i < |s| && s[i] == sep[0]
  {
    IndexIsFirst(s, sep);
    OccursChar(s, sep, i, 0);
  }

  lemma UrlShape(s: string, scheme: string) returns (changed: bool, colon: nat, at: nat)
    ensures !changed ==> UrlStep(s, scheme) == s
    ensures changed ==> colon < at < |s| && s[colon] == ':' && s[at] == '@'
                        && UrlStep(s, scheme) == s[..colon] + (":" + MARK) + s[at..]
  {
    changed, colon, at := false, 0, 0;
    var i := Index(s, scheme);
    if i >= 0 {
      var base := i + |scheme|;
      var rest := s[base..];
      var a := Index(rest, "@");
      if a >= 0 {
        var c := Index(rest[..a], ":");
        if c >= 0 {
          changed, colon, at := true, base + c, base + a;
          assert s[at] == '@' by { SeparatorAt(rest, "@", a); }
          assert s[colon] == ':' by { SeparatorAt(rest[..a], ":", c); }
          UrlStepAt(s, scheme, a, c);
        }
      }
    }
  }

  lemma SafeBeforeColon(s: string, p: Pattern, colon: nat, more: string, o: int)
    requires Listed(p) && Safe(s, p) && colon < |s| && s[colon] == ':'
    requires OccursAt(s[..colon] + more, p.prefix, o) && o + |p.prefix| <= colon
    ensures Keeps(p) && MarkedAt(s[..colon] + more, o + |p.prefix|)
  {
    var m := o + |p.prefix|;
    assert s == s[..colon] + s[colon..];
    OccursLeft(s[..colon], more, p.prefix, o);
    OccursLeft(s[..colon], s[colon..], p.prefix, o);
    assert MarkedAt(s, m);
    if m <= colon < m + |MARK| {
      OccursChar(s, MARK, m, colon - m);
      MarkChar(colon - m);
    }
    OccursLeft(s[..colon], s[colon..], MARK, m);
    OccursLeft(s[..colon], more, MARK, m);
  }

  lemma MiddleSlice(a: string, c: string, m: string, b: string)
    ensures OccursAt(a + (c + m) + b, m, |a| + |c|)
  {
    assert a + (c + m) + b == (a + c) + (m + b);
  }

  lemma SafeAfterUrl(s: string, colon: nat, at: nat, p: Pattern)
    requires Listed(p) && Safe(s, p) && colon < at < |s| && s[colon] == ':'
    ensures Safe(s[..colon] + (":" + MARK) + s[at..], p)
  {
    var head, rest := s[..colon] + (":" + MARK), s[at..];
    var t := head + rest;
    SafeSuffix(s, at, p);
    forall o | OccursAt(t, p.prefix, o) ensures Keeps(p) && MarkedAt(t, o + |p.prefix|) {
      if o <= colon < o + |p.prefix| {
        OccursChar(t, p.prefix, o, colon - o);
      }
      assert o + |p.prefix| <= colon + 1 || colon + 1 + |MARK| <= o by {
        MiddleSlice(s[..colon], ":", MARK, rest);
        NoStraddleMark(t, p, o, colon + 1);
      }
      if colon < o {
        SafeBehind(head, rest, p, o);
      } else {
        assert t == s[..colon] + (":" + MARK + rest);
        SafeBeforeColon(s, p, colon, ":" + MARK + rest, o);
      }
    }
  }

  lemma {:induction false} SafeAfterUrls(s: string, schemes: seq<string>, p: Pattern)
    requires Listed(p) && Safe(s, p)
    ensures Safe(UrlSteps(s, schemes), p)
    decreases schemes
  {
    if schemes != [] {
      var changed, colon, at := UrlShape(s, schemes[0]);
      if changed {
        SafeAfterUrl(s, colon, at, p);
      }
      SafeAfterUrls(UrlStep(s, schemes[0]), schemes[1..], p);
    }
  }

  // ----- the guarantees -----

  /** For every input and every listed pattern: in the final text each occurrence of the
      prefix is followed by the marker and the end of the token, and `AKIA` is gone. */
  lemma RedactedTextIsSafe(s: string)
    ensures forall p :: p in PATTERNS ==> Safe(Redact(s), p)
    ensures Absent(Redact(s), AWS_PREFIX)
  {
    PatternsNonEmpty();
    forall p | p in PATTERNS ensures Listed(p) {
      PatternListed(p);
    }
    forall p | p in PATTERNS ensures Safe(Redact(s), p) {
      SafeAfterPasses(s, PATTERNS, p);
      SafeAfterUrls(Passes(s, PATTERNS), SCHEMES, p);
    }
    var aws := Pattern(AWS_PREFIX, AWS_MARK);
    assert aws in AWS_PATTERNS;
    assert aws in PATTERNS && !Keeps(aws);
  }

  lemma {:induction false} TokenEndIs(s: string, from: nat, e: nat)
    requires from <= e <= |s| && Boundary(s[e..])
    requires forall k :: from <= k < e ==> !IsDelim(s[k])
    ensures TokenEnd(s, from) == e
    decreases e - from
  {
    if from < e {
      TokenEndIs(s, from + 1, e);
    }
  }

  lemma MarkedTokenEnd(s: string, m: nat)
    requires MarkedAt(s, m)
    ensures TokenEnd(s, m) == m + |MARK|
  {
    forall k | m <= k < m + |MARK| ensures !IsDelim(s[k]) {
      OccursChar(s, MARK, m, k - m);
      MarkChar(k - m);
    }
    TokenEndIs(s, m, m + |MARK|);
  }

  lemma MarkedPieces(s: string, p: Pattern, i: nat)
    requires OccursAt(s, p.prefix, i) && MarkedAt(s, i + |p.prefix|) && Keeps(p)
    ensures s == s[..i] + p.replacement + s[i + |p.prefix| + |MARK|..]
  {
    ThreePieces(s, i, i + |p.prefix|, i + |p.prefix| + |MARK|);
  }

  lemma ThreePieces(s: string, i: nat, m: nat, e: nat)
    requires i <= m <= e <= |s|
    ensures s == s[..i] + (s[i..m] + s[m..e]) + s[e..]
  {
    assert s[i..m] + s[m..e] == s[i..e];
    assert s[..i] + s[i..e] == s[..e];
  }

  /** A text that is safe for a pattern is left alone by its pass. */
  lemma {:induction false} SafeIsFixed(s: string, p: Pattern)
    requires Listed(p) && Safe(s, p)
    ensures Pass(s, p) == s
    decreases |s|
  {
    var i := Index(s, p.prefix);
    if i >= 0 {
      assert OccursAt(s, p.prefix, i) by {
        IndexIsFirst(s, p.prefix);
      }
      var e := i + |p.prefix| + |MARK|;
      MarkedTokenEnd(s, i + |p.prefix|);
      assert Pass(s[e..], p) == s[e..] by {
        SafeSuffix(s, e, p);
        SafeIsFixed(s[e..], p);
      }
      PassAt(s, p, i, e, s[..i], s[e..]);
      MarkedPieces(s, p, i);
    }
  }

  lemma {:induction false} SafeIsFixedByAll(s: string, ps: seq<Pattern>)
    requires forall p :: p in ps ==> p.prefix != "" && Listed(p) && Safe(s, p)
    ensures Passes(s, ps) == s
    decreases ps
  {
    if ps != [] {
      SafeIsFixed(s, ps[0]);
      SafeIsFixedByAll(s, ps[1..]);
    }
  }

  /** Running the prefix patterns over an already redacted text changes nothing. */
  lemma PrefixPassIsIdempotent(s: string)
    ensures (forall p :: p in PATTERNS ==> p.prefix != "") && Passes(Redact(s), PATTERNS) == Redact(s)
  {
    PatternsNonEmpty();
    RedactedTextIsSafe(s);
    forall p | p in PATTERNS ensures Listed(p) {
      PatternListed(p);
    }
    SafeIsFixedByAll(Redact(s), PATTERNS);
  }
}
