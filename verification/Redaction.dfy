/** Secret redaction: nineteen prefix patterns rewritten one after the other, then one
    password rewrite per URL scheme. */
module Redaction {
  import opened Text

  datatype Pattern = Pattern(prefix: string, replacement: string)

  const MARK := "[REDACTED]"
  const AWS_PREFIX := "AKIA"
  const AWS_MARK := "[AWS_KEY_REDACTED]"

  /** A pattern whose replacement is its prefix followed by the marker. */
  function Keeping(prefix: string): Pattern {
    Pattern(prefix, prefix + MARK)
  }

  // Service keys and bearer tokens.
  const KEY_PATTERNS: seq<Pattern> := [Keeping("sk-"), Keeping("Bearer ")]

  // Query parameters.
  const TOKEN_PATTERNS: seq<Pattern> :=
    [Keeping("token="), Keeping("api_key="), Keeping("apikey="), Keeping("access_token=")]
  const PASSWORD_PATTERNS: seq<Pattern> :=
    [Keeping("secret="), Keeping("password="), Keeping("passwd=")]

  // Vendor keys.
  const AWS_PATTERNS: seq<Pattern> := [Pattern(AWS_PREFIX, AWS_MARK)]
  const GITHUB_PATTERNS: seq<Pattern> :=
    [Keeping("ghp_"), Keeping("gho_"), Keeping("ghu_"), Keeping("ghs_"), Keeping("ghr_")]
  const OTHER_PATTERNS: seq<Pattern> :=
    [Keeping("npm_"), Keeping("xoxb-"), Keeping("xoxp-"), Keeping("xoxs-")]

  const PATTERNS: seq<Pattern> :=
    KEY_PATTERNS + TOKEN_PATTERNS + PASSWORD_PATTERNS + AWS_PATTERNS + GITHUB_PATTERNS + OTHER_PATTERNS

  const SCHEMES: seq<string> :=
    ["https://", "http://", "postgres://", "postgresql://", "mysql://", "mongodb://", "redis://"]

  /** The bytes that end a token. */
  predicate IsDelim(c: char) {
    c == ' ' || c == '\n' || c == '"' || c == '\'' || c == ',' || c == ';'
  }

  ghost predicate NoDelim(s: string) {
    forall k :: 0 <= k < |s| ==> !IsDelim(s[k])
  }

  /** Nothing, or text that begins with a delimiter: what can follow a whole token. */
  ghost predicate Boundary(s: string) {
    s == "" || IsDelim(s[0])
  }

  // ----- what the loops compute -----

  function TokenEnd(s: string, from: nat): (e: nat)
    requires from <= |s|
    ensures from <= e <= |s|
    decreases |s| - from
  {
    if from == |s| || IsDelim(s[from]) then from else TokenEnd(s, from + 1)
  }

  /** One pattern over the whole text: each occurrence found, left to right, is replaced
      together with the token behind it, and the search goes on after the replacement. */
  function Pass(s: string, p: Pattern): string
    requires p.prefix != ""
    decreases |s|
  {
    var i := Index(s, p.prefix);
    if i < 0 then s
    else
      var e := TokenEnd(s, i + |p.prefix|);
      s[..i] + p.replacement + Pass(s[e..], p)
  }

  function Passes(s: string, ps: seq<Pattern>): string
    requires forall p :: p in ps ==> p.prefix != ""
    decreases ps
  {
    if ps == [] then s else Passes(Pass(s, ps[0]), ps[1..])
  }

  /** The password of the first `scheme` URL, when the text behind the scheme has an `@`
      with a `:` before it. */
  function UrlStep(s: string, scheme: string): string {
    var i := Index(s, scheme);
    if i < 0 then s
    else
      var rest := s[i + |scheme|..];
      var at := Index(rest, "@");
      if at < 0 then s
      else
        var colon := Index(rest[..at], ":");
        if colon < 0 then s
        else s[..i + |scheme|] + (rest[..at][..colon] + ":" + MARK) + rest[at..]
  }

  function UrlSteps(s: string, schemes: seq<string>): string
    decreases schemes
  {
    if schemes == [] then s else UrlSteps(UrlStep(s, schemes[0]), schemes[1..])
  }

  lemma PatternsNonEmpty()
    ensures forall p :: p in PATTERNS ==> p.prefix != ""
  {
  }

  function Redact(s: string): string {
    PatternsNonEmpty();
    UrlSteps(Passes(s, PATTERNS), SCHEMES)
  }

  // ----- the program -----

  lemma SpliceParts(result: string, done: string, rest: string, idx: nat, r: string, end: nat)
    requires result == done + rest && |done| <= idx <= end <= |result|
    ensures result[..idx] + r + result[end..]
         == (done + rest[..idx - |done|] + r) + rest[end - |done|..]
  {
    assert result[..idx] == done + rest[..idx - |done|];
    assert result[end..] == rest[end - |done|..];
  }

  /** One unfolding of `Pass` at an occurrence. */
  lemma PassAt(s: string, p: Pattern, i: nat, e: nat, head: string, tail: string)
    requires p.prefix != "" && i == Index(s, p.prefix) && e == TokenEnd(s, i + |p.prefix|)
    requires head == s[..i] && tail == s[e..]
    ensures Pass(s, p) == head + p.replacement + Pass(tail, p)
  {
  }

  lemma Assoc(a: string, b: string, c: string, d: string)
    ensures a + (b + c + d) == a + b + c + d
  {
  }

  /** One turn of the pattern loop: the text before the cursor is final. */
  lemma PassSplice(done: string, rest: string, p: Pattern, i: nat, e: nat)
    requires p.prefix != "" && i == Index(rest, p.prefix) && e == TokenEnd(rest, i + |p.prefix|)
    ensures done + Pass(rest, p) == (done + rest[..i] + p.replacement) + Pass(rest[e..], p)
  {
    PassAt(rest, p, i, e, rest[..i], rest[e..]);
    Assoc(done, rest[..i], p.replacement, Pass(rest[e..], p));
  }

  lemma DropLeft(x: string, y: string)
    ensures (x + y)[|x|..] == y
  {
  }

  /** The invariant of the pattern loop, carried over one turn. */
  lemma PatternTurn(s: string, result: string, done: string, rest: string, p: Pattern, idx: nat, end: nat)
    returns (done': string, rest': string)
    requires p.prefix != "" && result == done + rest && done + Pass(rest, p) == Pass(s, p)
    requires idx == Index(rest, p.prefix) + |done| && Index(rest, p.prefix) >= 0
    requires end == TokenEnd(rest, Index(rest, p.prefix) + |p.prefix|) + |done|
    ensures idx <= end <= |result| && result[..idx] + p.replacement + result[end..] == done' + rest'
    ensures |done'| == idx + |p.replacement| && |rest'| < |rest|
    ensures done' + Pass(rest', p) == Pass(s, p)
  {
    var i, e := idx - |done|, end - |done|;
    done', rest' := done + rest[..i] + p.replacement, rest[e..];
    assert done' + Pass(rest', p) == Pass(s, p) by { PassSplice(done, rest, p, i, e); }
    SpliceParts(result, done, rest, idx, p.replacement, end);
  }

  method RedactPattern(s: string, p: Pattern) returns (result: string)
    requires p.prefix != ""
    ensures result == Pass(s, p)
  {
    result := s;
    var searchFrom := 0;
    ghost var done, rest := "", s;
    while true
      invariant result == done + rest && searchFrom == |done|
      invariant done + Pass(rest, p) == Pass(s, p)
      decreases |rest|
    {
      DropLeft(done, rest);
      var idx := Index(result[searchFrom..], p.prefix);
      if idx < 0 {
        break;
      }
      idx := idx + searchFrom;
      var end := ScanToken(result, idx + |p.prefix|, done, rest);
      done, rest := PatternTurn(s, result, done, rest, p, idx, end);
      result := result[..idx] + p.replacement + result[end..];
      searchFrom := idx + |p.replacement|;
    }
  }

  /** The inner loop: the end of the token that starts at `from`. */
  method ScanToken(result: string, from: nat, ghost done: string, ghost rest: string) returns (end: nat)
    requires result == done + rest && |done| <= from <= |result|
    ensures from <= end <= |result| && end - |done| == TokenEnd(rest, from - |done|)
  {
    end := from;
    while end < |result| && !IsDelim(result[end])
      invariant from <= end <= |result|
      invariant TokenEnd(rest, end - |done|) == TokenEnd(rest, from - |done|)
    {
      end := end + 1;
    }
  }

  method RedactUrl(s: string, scheme: string) returns (result: string)
    ensures result == UrlStep(s, scheme)
  {
    result := s;
    var idx := Index(result, scheme);
    if idx < 0 {
      return;
    }
    var rest := result[idx + |scheme|..];
    var atIdx := Index(rest, "@");
    if atIdx < 0 {
      return;
    }
    var userPass := rest[..atIdx];
    var colonIdx := Index(userPass, ":");
    if colonIdx < 0 {
      return;
    }
    var newUserPass := userPass[..colonIdx] + ":" + MARK;
    assert result[idx + |scheme| + atIdx..] == rest[atIdx..];
    result := result[..idx + |scheme|] + newUserPass + result[idx + |scheme| + atIdx..];
  }

  method RedactUrlPasswords(s: string) returns (result: string)
    ensures result == UrlSteps(s, SCHEMES)
  {
    result := s;
    var k := 0;
    while k < |SCHEMES|
      invariant 0 <= k <= |SCHEMES|
      invariant UrlSteps(result, SCHEMES[k..]) == UrlSteps(s, SCHEMES)
    {
      assert SCHEMES[k..][1..] == SCHEMES[k + 1..];
      result := RedactUrl(result, SCHEMES[k]);
      k := k + 1;
    }
  }

  method RedactSecrets(s: string) returns (result: string)
    ensures result == Redact(s)
  {
    PatternsNonEmpty();
    result := s;
    var k := 0;
    while k < |PATTERNS|
      invariant 0 <= k <= |PATTERNS|
      invariant Passes(result, PATTERNS[k..]) == Passes(s, PATTERNS)
    {
      assert PATTERNS[k] in PATTERNS;
      assert PATTERNS[k..][1..] == PATTERNS[k + 1..];
      result := RedactPattern(result, PATTERNS[k]);
      k := k + 1;
    }
    result := RedactUrlPasswords(result);
  }
}
