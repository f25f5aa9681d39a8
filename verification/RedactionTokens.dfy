/** What the redaction makes of one secret: for each of the nineteen prefixes, written out, the token
    behind it is replaced and the rest of the text stays. */
module RedactionTokens {
  import opened Text
  import opened Redaction
  import opened RedactionSafety
  import opened RedactionSecrecy
  import opened RedactionUrls

  predicate IsKeyPrefix(p: string) {
    p == "sk-" || p == "Bearer "
  }

  predicate IsQueryPrefix(p: string) {
    || p == "token=" || p == "api_key=" || p == "apikey=" || p == "access_token=" || p == "secret="
    || p == "password=" || p == "passwd="
  }

  predicate IsVendorPrefix(p: string) {
    || p == "ghp_" || p == "gho_" || p == "ghu_" || p == "ghs_" || p == "ghr_" || p == "npm_" || p == "xoxb-"
    || p == "xoxp-" || p == "xoxs-"
  }

  predicate IsSecretPrefix(p: string) {
    IsKeyPrefix(p) || IsQueryPrefix(p) || p == "AKIA" || IsVendorPrefix(p)
  }

  /** What stands in the output for the prefix and its token. */
  function Masked(p: string): string {
    if p == "AKIA" then "[AWS_KEY_REDACTED]" else p + "[REDACTED]"
  }

  lemma KeyListed(p: string)
    requires IsKeyPrefix(p) || IsQueryPrefix(p)
    ensures Keeping(p) in PATTERNS
  {
    var q := Keeping(p);
    if IsKeyPrefix(p) {
      assert q in KEY_PATTERNS;
    } else {
      assert q in TOKEN_PATTERNS || q in PASSWORD_PATTERNS;
    }
  }

  lemma VendorListed(p: string)
    requires IsVendorPrefix(p)
    ensures Keeping(p) in PATTERNS
  {
    var q := Keeping(p);
    assert q in GITHUB_PATTERNS || q in OTHER_PATTERNS;
  }

  lemma SecretListed(p: string)
    requires IsSecretPrefix(p)
    ensures Pattern(p, Masked(p)) in PATTERNS
  {
    if p == "AKIA" {
      assert Pattern(p, Masked(p)) in AWS_PATTERNS;
    } else if IsVendorPrefix(p) {
      VendorListed(p);
    } else {
      KeyListed(p);
    }
  }

  /** Nothing else is listed. */
  lemma ListedSecret(q: Pattern)
    requires q in PATTERNS
    ensures IsSecretPrefix(q.prefix) && q.replacement == Masked(q.prefix)
  {
    if q in KEY_PATTERNS || q in TOKEN_PATTERNS {
    } else if q in PASSWORD_PATTERNS || q in AWS_PATTERNS {
    } else if q in GITHUB_PATTERNS {
    } else {
      assert q in OTHER_PATTERNS;
    }
  }

  /** The one listed prefix is rewritten by its own pass, and the others find nothing. */
  lemma {:induction false} PassesOnce(s: string, s': string, q: Pattern, ps: seq<Pattern>)
    requires forall r :: r in ps ==> r.prefix != "" && (r == q || (Absent(s, r.prefix) && Absent(s', r.prefix)))
    requires q.prefix != "" && Pass(s, q) == s' && Pass(s', q) == s'
    ensures Passes(s', ps) == s' && (q in ps ==> Passes(s, ps) == s')
    decreases ps
  {
    if ps != [] {
      IndexIsFirst(s, ps[0].prefix);
      IndexIsFirst(s', ps[0].prefix);
      PassesOnce(s, s', q, ps[1..]);
    }
  }

  lemma TokenPassed(a: string, q: Pattern, t: string, b: string)
    requires Listed(q) && NoDelim(t) && Boundary(b)
    requires forall i :: OccursAt(a + q.prefix + t + b, q.prefix, i) ==> i == |a|
    ensures Pass(a + q.prefix + t + b, q) == a + q.replacement + b
  {
    var s, i, e := a + q.prefix + t + b, |a|, |a + q.prefix + t|;
    assert Pass(b, q) == b by {
      AbsentBehind(a + q.prefix + t, b, q.prefix, |a|);
      PassIdle(b, q);
    }
    TokenParts(a, q.prefix, t, b);
    PassOne(s, q, a, b, i, e);
  }

  lemma PassOne(s: string, q: Pattern, a: string, b: string, i: nat, e: nat)
    requires q.prefix != "" && i + |q.prefix| <= e <= |s| && Index(s, q.prefix) == i && s[..i] == a && s[e..] == b
    requires Boundary(b) && forall k :: i + |q.prefix| <= k < e ==> !IsDelim(s[k])
    ensures Pass(s, q) == a + q.replacement + Pass(b, q)
  {
    TokenEndIs(s, i + |q.prefix|, e);
    PassAt(s, q, i, e, a, b);
  }

  lemma PassIdle(b: string, q: Pattern)
    requires q.prefix != "" && Absent(b, q.prefix)
    ensures Pass(b, q) == b
  {
    IndexIsFirst(b, q.prefix);
  }

  lemma TokenParts(a: string, p: string, t: string, b: string)
    requires p != "" && NoDelim(t) && forall i :: OccursAt(a + p + t + b, p, i) ==> i == |a|
    ensures var s, e := a + p + t + b, |a + p + t|;
            && Index(s, p) == |a| && s[..|a|] == a && s[e..] == b
            && forall k :: |a| + |p| <= k < e ==> !IsDelim(s[k])
  {
    var s := a + p + t + b;
    assert s[|a|..|a| + |p|] == p;
    IndexUnique(s, p, |a|);
    forall k | |a| + |p| <= k < |a + p + t| ensures !IsDelim(s[k]) {
      assert s[k] == t[k - |a| - |p|];
    }
  }

  lemma AbsentBehind(x: string, b: string, p: string, at: nat)
    requires p != "" && at < |x| && forall i :: OccursAt(x + b, p, i) ==> i == at
    ensures Absent(b, p)
  {
    forall k ensures !OccursAt(b, p, k) {
      if OccursAt(b, p, k) {
        OccursRight(x, b, p, |x| + k);
      }
    }
  }

  /** No other listed prefix appears by the rewriting. */
  lemma OthersAbsent(a: string, q: Pattern, t: string, b: string, r: Pattern)
    requires Listed(q) && Listed(r) && Absent(a + q.prefix + t + b, r.prefix)
    ensures Absent(a + q.replacement + b, r.prefix)
  {
    forall k ensures !OccursAt(a + q.replacement + b, r.prefix, k) {
      if OccursAt(a + q.replacement + b, r.prefix, k) {
        OccursAroundReplacement(a, q, b, r, k);
        FromOutput(a, q, t, b, r.prefix, k);
      }
    }
  }

  /** An occurrence in front of the marker or behind it was there before. */
  lemma FromOutput(a: string, q: Pattern, t: string, b: string, p: string, k: int)
    requires Listed(q) && OccursAt(a + q.replacement + b, p, k)
    requires k + |p| <= |a| + (if Keeps(q) then |q.prefix| else 0) || |a + q.replacement| <= k
    ensures !Absent(a + q.prefix + t + b, p)
  {
    var s := a + q.prefix + t + b;
    if |a + q.replacement| <= k {
      OccursRight(a + q.replacement, b, p, k);
      OccursRight(a + q.prefix + t, b, p, |a + q.prefix + t| + k - |a + q.replacement|);
    } else {
      var kept, m := if Keeps(q) then a + q.prefix else a, if Keeps(q) then MARK else q.replacement;
      assert a + q.replacement + b == kept + (m + b);
      OccursLeft(kept, m + b, p, k);
      var more := if Keeps(q) then t + b else q.prefix + t + b;
      assert s == kept + more;
      OccursLeft(kept, more, p, k);
    }
  }

  /** Nor a scheme. */
  lemma SchemesAbsent(a: string, q: Pattern, t: string, b: string, f: string)
    requires Listed(q) && Shaped(f) && Absent(a + q.prefix + t + b, f)
    ensures Absent(a + q.replacement + b, f)
  {
    var s := a + q.replacement + b;
    var h := if Keeps(q) then |q.prefix| else 0;
    ReplacementShape(q);
    forall k ensures !OccursAt(s, f, k) {
      if OccursAt(s, f, k) {
        if k < |a| + h < k + |f| {
          assert s[|a| + h] == q.replacement[h];
          OccursChar(s, f, k, |a| + h - k);
          SchemeHasNo(f, |a| + h - k);
        } else if |a| + h <= k < |a + q.replacement| {
          assert s[k] == q.replacement[k - |a|];
          OccursChar(s, f, k, 0);
          SchemeHasNo(f, 0);
        }
        FromOutput(a, q, t, b, f, k);
      }
    }
  }

  lemma OneSecret(a: string, q: Pattern, t: string, b: string, ps: seq<Pattern>)
    requires q in ps && Listed(q) && NoDelim(t) && Boundary(b)
    requires forall r :: r in ps ==> r.prefix != "" && Listed(r)
    requires forall r, i :: r in ps && OccursAt(a + q.prefix + t + b, r.prefix, i) ==> r == q && i == |a|
    ensures Passes(a + q.prefix + t + b, ps) == a + q.replacement + b
  {
    var s, s' := a + q.prefix + t + b, a + q.replacement + b;
    TokenPassed(a, q, t, b);
    SafeAfterPass(s, q, q);
    SafeIsFixed(s', q);
    forall r | r in ps && r != q ensures Absent(s, r.prefix) && Absent(s', r.prefix) {
      OthersAbsent(a, q, t, b, r);
    }
    PassesOnce(s, s', q, ps);
  }

  /** For each of the nineteen prefixes: where it is the only one in a text without URLs, exactly the
      token behind it is replaced. */
  lemma TokenIsReplaced(a: string, p: string, t: string, b: string)
    requires IsSecretPrefix(p) && NoDelim(t) && Boundary(b)
    requires forall r, i :: IsSecretPrefix(r) && OccursAt(a + p + t + b, r, i) ==> r == p && i == |a|
    requires forall f :: IsScheme(f) ==> Absent(a + p + t + b, f)
    ensures Redact(a + p + t + b) == a + Masked(p) + b
  {
    var q := Pattern(p, Masked(p));
    SecretListed(p);
    PatternsNonEmpty();
    forall r | r in PATTERNS ensures Listed(r) && IsSecretPrefix(r.prefix) && (r.prefix == p ==> r == q) {
      PatternListed(r);
      ListedSecret(r);
    }
    OneSecret(a, q, t, b, PATTERNS);
    OrderIs();
    forall f | f in ORDER ensures Absent(a + q.replacement + b, f) {
      SchemeShape(f);
      SchemesAbsent(a, q, t, b, f);
    }
    StepsAbsent(a + q.replacement + b, ORDER);
  }

  /** The text ends at `k`, or one of the six bytes that end a token stands there. */
  predicate TokenEndsAt(s: string, k: nat) {
    k == |s| || (k < |s| && (s[k] == ' ' || s[k] == '\n' || s[k] == '"' || s[k] == '\'' || s[k] == ',' || s[k] == ';'))
  }

  /** In every output, a listed prefix is followed by the marker and the end of the token. */
  lemma SecretsAreMarked(s: string, p: string, i: int)
    requires IsSecretPrefix(p) && OccursAt(Redact(s), p, i)
    ensures var r, k := Redact(s), i + |p|;
            p != "AKIA" && OccursAt(r, "[REDACTED]", k) && TokenEndsAt(r, k + 10)
  {
    assert Safe(Redact(s), Pattern(p, Masked(p))) by {
      SecretListed(p);
      RedactedTextIsSafe(s);
    }
    SecretIsMarked(Redact(s), p, i);
  }

  lemma SecretIsMarked(r: string, p: string, i: int)
    requires Safe(r, Pattern(p, Masked(p))) && OccursAt(r, p, i)
    ensures p != "AKIA" && OccursAt(r, "[REDACTED]", i + |p|) && TokenEndsAt(r, i + |p| + 10)
  {
    var q := Pattern(p, Masked(p));
    assert Keeps(q) && MarkedAt(r, i + |p|);
    AwsIsDropped(q);
    MarkedEnds(r, i + |p|, "[REDACTED]");
  }

  lemma AwsIsDropped(q: Pattern)
    requires q.replacement == Masked(q.prefix)
    ensures q.prefix == "AKIA" ==> !Keeps(q)
  {
    if q.prefix == "AKIA" {
      assert q.replacement[0] != (q.prefix + MARK)[0];
    }
  }

  lemma MarkedEnds(r: string, k: nat, m: string)
    requires m == MARK && MarkedAt(r, k)
    ensures OccursAt(r, m, k) && TokenEndsAt(r, k + 10)
  {
  }
}
