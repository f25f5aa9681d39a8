/** Prompt templates: `{{key}}` substitution by one global replacement per context entry. */
module Template {
  import opened Options
  import opened Text

  /** strings.ReplaceAll for a non-empty `old`. */
  function ReplaceAll(s: string, old_: string, new_: string): string
    requires old_ != ""
    decreases |s|
  {
    var i := Index(s, old_);
    if i < 0 then s else s[..i] + new_ + ReplaceAll(s[i + |old_|..], old_, new_)
  }

  function Placeholder(key: string): string {
    "{{" + key + "}}"
  }

  /** The replacements, in the given order of keys. */
  function Fill(s: string, order: seq<string>, ctx: map<string, string>): string
    requires forall k :: k in order ==> k in ctx
    decreases order
  {
    if order == [] then s
    else Fill(ReplaceAll(s, Placeholder(order[0]), ctx[order[0]]), order[1..], ctx)
  }

  /** `order` lists every key once. */
  ghost predicate OrderOf(order: seq<string>, keys: set<string>) {
    && (forall k :: k in order <==> k in keys)
    && (forall i, j :: 0 <= i < j < |order| ==> order[i] != order[j])
  }

  // ----- the intended meaning -----

  datatype Piece = Literal(text: string) | Key(name: string)

  ghost predicate BraceFree(s: string) {
    forall i :: 0 <= i < |s| ==> s[i] != '{' && s[i] != '}'
  }

  function PieceText(p: Piece): string {
    match p
    case Literal(text) => text
    case Key(name) => Placeholder(name)
  }

  function Flatten(ps: seq<Piece>): string
    decreases ps
  {
    if ps == [] then "" else PieceText(ps[0]) + Flatten(ps[1..])
  }

  ghost predicate WellFormed(ps: seq<Piece>) {
    forall i :: 0 <= i < |ps| ==> BraceFree(match ps[i] case Literal(t) => t case Key(n) => n)
  }

  ghost predicate PlainContext(ctx: map<string, string>) {
    forall k :: k in ctx ==> BraceFree(k) && BraceFree(ctx[k])
  }

  /** All keys at once: known keys become their values, everything else stays. */
  function SubstPiece(p: Piece, ctx: map<string, string>): Piece {
    if p.Key? && p.name in ctx then Literal(ctx[p.name]) else p
  }

  function Subst(ps: seq<Piece>, ctx: map<string, string>): seq<Piece> {
    seq(|ps|, i requires 0 <= i < |ps| => SubstPiece(ps[i], ctx))
  }

  // ----- the program -----

  /** One pass over the context in whatever order the map yields its keys. */
  method RenderTemplate(tmpl: string, ctx: Option<map<string, string>>) returns (result: string)
    ensures ctx.None? ==> result == tmpl
    ensures ctx.Some? ==> exists order :: OrderOf(order, ctx.value.Keys) && result == Fill(tmpl, order, ctx.value)
    ensures ctx.Some? && PlainContext(ctx.value) ==>
              forall ps :: WellFormed(ps) && Flatten(ps) == tmpl ==> result == Flatten(Subst(ps, ctx.value))
  {
    result := tmpl;
    if ctx == None {
      return;
    }
    var entries := ctx.value;
    var remaining := entries.Keys;
    ghost var order: seq<string> := [];
    while remaining != {}
      invariant OrderOf(order, entries.Keys - remaining) && remaining <= entries.Keys
      invariant result == Fill(tmpl, order, entries)
      decreases remaining
    {
      var key :| key in remaining;
      result := ReplaceAll(result, Placeholder(key), entries[key]);
      remaining := remaining - {key};
      FillSnoc(tmpl, order, key, entries);
      order := order + [key];
    }
    if PlainContext(entries) {
      forall ps | WellFormed(ps) && Flatten(ps) == tmpl ensures result == Flatten(Subst(ps, entries)) {
        FillIsSubst(ps, order, entries);
      }
    }
  }

  lemma {:induction false} FillSnoc(s: string, order: seq<string>, key: string, ctx: map<string, string>)
    requires key in ctx && forall k :: k in order ==> k in ctx
    ensures Fill(s, order + [key], ctx) == ReplaceAll(Fill(s, order, ctx), Placeholder(key), ctx[key])
    decreases order
  {
    if order == [] {
      assert order + [key] == [key];
    } else {
      FillSnoc(ReplaceAll(s, Placeholder(order[0]), ctx[order[0]]), order[1..], key, ctx);
      assert (order + [key])[1..] == order[1..] + [key];
    }
  }

  // ----- one replacement is one substitution -----

  lemma ReplaceAt(s: string, p: string, v: string, i: nat, head: string, tail: string)
    requires p != "" && Index(s, p) == i && s[..i] == head && s[i + |p|..] == tail
    ensures ReplaceAll(s, p, v) == head + v + ReplaceAll(tail, p, v)
  {
  }

  lemma SkipSlices(x: string, b: string, i: nat, n: nat)
    requires i + n <= |b|
    ensures (x + b)[..|x| + i] == x + b[..i] && (x + b)[|x| + i + n..] == b[i + n..]
  {
  }

  lemma Assoc(x: string, y: string, v: string, z: string)
    ensures (x + y) + v + z == x + (y + v + z)
  {
  }

  lemma ReplaceSkipAt(x: string, b: string, p: string, v: string, i: nat)
    requires p != "" && Index(b, p) == i && Index(x + b, p) == |x| + i
    ensures ReplaceAll(x + b, p, v) == x + ReplaceAll(b, p, v)
  {
    var head, tail := b[..i], b[i + |p|..];
    SkipSlices(x, b, i, |p|);
    ReplaceAt(x + b, p, v, |x| + i, x + head, tail);
    ReplaceAt(b, p, v, i, head, tail);
    Assoc(x, head, v, ReplaceAll(tail, p, v));
  }

  /** Text in which no occurrence starts is copied. */
  lemma ReplaceSkip(x: string, b: string, p: string, v: string)
    requires p != "" && forall k :: 0 <= k < |x| ==> !OccursAt(x + b, p, k)
    ensures ReplaceAll(x + b, p, v) == x + ReplaceAll(b, p, v)
  {
    IndexShift(x, b, p);
    if Index(b, p) >= 0 {
      ReplaceSkipAt(x, b, p, v, Index(b, p));
    }
  }

  lemma PlaceholderChars(key: string)
    ensures var p := Placeholder(key);
            && |p| == |key| + 4 && p[0] == '{' && p[1] == '{' && p[|key| + 2] == '}' && p[|key| + 3] == '}'
            && forall i :: 0 <= i < |key| ==> p[i + 2] == key[i]
  {
  }

  /** A placeholder does not start anywhere in another one. */
  lemma OtherPlaceholder(name: string, b: string, key: string, k: int)
    requires BraceFree(name) && BraceFree(key) && name != key
    requires 0 <= k < |Placeholder(name)|
    ensures !OccursAt(Placeholder(name) + b, Placeholder(key), k)
  {
    var x, p := Placeholder(name), Placeholder(key);
    PlaceholderChars(name);
    PlaceholderChars(key);
    if OccursAt(x + b, p, k) {
      OccursChar(x + b, p, k, 0);
      if k > 0 {
        OccursChar(x + b, p, k, 1);
      } else if |name| != |key| {
        OccursChar(x + b, p, 0, 2 + if |name| < |key| then |name| else |key|);
      } else {
        forall i | 0 <= i < |key| ensures name[i] == key[i] {
          OccursChar(x + b, p, 0, i + 2);
        }
      }
    }
  }

  lemma FlattenSubst(ps: seq<Piece>, m: map<string, string>)
    requires ps != []
    ensures Flatten(Subst(ps, m)) == PieceText(SubstPiece(ps[0], m)) + Flatten(Subst(ps[1..], m))
  {
    assert Subst(ps, m)[1..] == Subst(ps[1..], m);
  }

  lemma {:induction false} ReplaceIsSubst(ps: seq<Piece>, key: string, value: string)
    requires WellFormed(ps) && BraceFree(key)
    ensures ReplaceAll(Flatten(ps), Placeholder(key), value) == Flatten(Subst(ps, map[key := value]))
    decreases ps
  {
    var m, p := map[key := value], Placeholder(key);
    if ps == [] {
      IndexIsFirst("", p);
    } else {
      var rest := Flatten(ps[1..]);
      ReplaceIsSubst(ps[1..], key, value);
      FlattenSubst(ps, m);
      if ps[0] == Key(key) {
        ReplaceHere(rest, key, value);
      } else {
        var x := PieceText(ps[0]);
        forall k | 0 <= k < |x| ensures !OccursAt(x + rest, p, k) {
          match ps[0] {
            case Literal(_) => if OccursAt(x + rest, p, k) { OccursChar(x + rest, p, k, 0); }
            case Key(n) => OtherPlaceholder(n, rest, key, k);
          }
        }
        ReplaceSkip(x, rest, p, value);
      }
    }
  }

  lemma ReplaceHere(rest: string, key: string, value: string)
    ensures ReplaceAll(Placeholder(key) + rest, Placeholder(key), value)
         == value + ReplaceAll(rest, Placeholder(key), value)
  {
    var p := Placeholder(key);
    assert (p + rest)[..|p|] == p && (p + rest)[|p|..] == rest && (p + rest)[..0] == "";
    IndexUnique(p + rest, p, 0);
    ReplaceAt(p + rest, p, value, 0, "", rest);
    assert "" + value == value;
  }

  lemma SubstSplit(ps: seq<Piece>, key: string, ctx: map<string, string>, order: seq<string>)
    requires key in ctx && key !in order && forall k :: k in order ==> k in ctx
    ensures Subst(Subst(ps, map[key := ctx[key]]), Restrict(ctx, order))
         == Subst(ps, Restrict(ctx, [key] + order))
  {
  }

  function Restrict(ctx: map<string, string>, order: seq<string>): map<string, string> {
    map k | k in ctx && k in order :: ctx[k]
  }

  lemma {:induction false} FillIsSubstFor(ps: seq<Piece>, order: seq<string>, ctx: map<string, string>)
    requires WellFormed(ps) && PlainContext(ctx)
    requires forall k :: k in order ==> k in ctx
    requires forall i, j :: 0 <= i < j < |order| ==> order[i] != order[j]
    ensures Fill(Flatten(ps), order, ctx) == Flatten(Subst(ps, Restrict(ctx, order)))
    decreases order
  {
    if order == [] {
      assert Subst(ps, Restrict(ctx, order)) == ps;
    } else {
      var key := order[0];
      assert BraceFree(key) && BraceFree(ctx[key]);
      var qs := Subst(ps, map[key := ctx[key]]);
      assert ReplaceAll(Flatten(ps), Placeholder(key), ctx[key]) == Flatten(qs) by {
        ReplaceIsSubst(ps, key, ctx[key]);
      }
      assert Fill(Flatten(qs), order[1..], ctx) == Flatten(Subst(qs, Restrict(ctx, order[1..]))) by {
        FillIsSubstFor(qs, order[1..], ctx);
      }
      assert order == [key] + order[1..];
      SubstSplit(ps, key, ctx, order[1..]);
    }
  }

  /** For brace-free keys and values, and a template made of brace-free literals and
      placeholders, every order of the keys gives the simultaneous substitution. */
  lemma FillIsSubst(ps: seq<Piece>, order: seq<string>, ctx: map<string, string>)
    requires WellFormed(ps) && PlainContext(ctx) && OrderOf(order, ctx.Keys)
    ensures Fill(Flatten(ps), order, ctx) == Flatten(Subst(ps, ctx))
  {
    FillIsSubstFor(ps, order, ctx);
    assert Restrict(ctx, order) == ctx;
  }

  /** Unknown keys stay verbatim, and a template without known keys is returned unchanged. */
  lemma UnknownKeysStay(ps: seq<Piece>, ctx: map<string, string>)
    requires forall i :: 0 <= i < |ps| && ps[i].Key? ==> ps[i].name !in ctx
    ensures Flatten(Subst(ps, ctx)) == Flatten(ps)
  {
    assert Subst(ps, ctx) == ps;
  }

  // ----- where the order shows -----

  lemma ReplaceAbsent(s: string, p: string, v: string)
    requires p != "" && Absent(s, p)
    ensures ReplaceAll(s, p, v) == s
  {
    IndexIsFirst(s, p);
  }

  /** A value with braces: `{{a}}`, where a stands for `{{b}}` and b for `x`, depends on the
      order. */
  lemma BracesInValuesDepend(a: string, b: string, x: string)
    requires BraceFree(a) && BraceFree(b) && BraceFree(x) && a != b
    ensures var ctx := map[a := Placeholder(b), b := x];
            && OrderOf([a, b], ctx.Keys) && OrderOf([b, a], ctx.Keys)
            && Fill(Placeholder(a), [a, b], ctx) == x && Fill(Placeholder(a), [b, a], ctx) == Placeholder(b) != x
  {
    var ctx := map[a := Placeholder(b), b := x];
    OneKey(a, a, Placeholder(b));
    OneKey(b, b, x);
    OneKey(a, b, x);
    FillTwo(Placeholder(a), a, b, ctx);
    FillTwo(Placeholder(a), b, a, ctx);
    PlaceholderChars(b);
  }

  lemma OneKey(name: string, key: string, value: string)
    requires BraceFree(name) && BraceFree(key)
    ensures ReplaceAll(Placeholder(name), Placeholder(key), value) == if name == key then value else Placeholder(name)
  {
    var ps := [Key(name)];
    assert Flatten(ps) == Placeholder(name) by { assert ps[1..] == [] && Flatten([]) == ""; }
    ReplaceIsSubst(ps, key, value);
    var qs := Subst(ps, map[key := value]);
    assert qs == [SubstPiece(ps[0], map[key := value])];
    assert Flatten(qs) == PieceText(qs[0]) by { assert qs[1..] == [] && Flatten([]) == ""; }
  }

  lemma FillTwo(s: string, k1: string, k2: string, ctx: map<string, string>)
    requires k1 in ctx && k2 in ctx
    ensures Fill(s, [k1, k2], ctx)
         == ReplaceAll(ReplaceAll(s, Placeholder(k1), ctx[k1]), Placeholder(k2), ctx[k2])
  {
    var s1 := ReplaceAll(s, Placeholder(k1), ctx[k1]);
    assert [k1, k2][1..] == [k2];
    assert Fill(s, [k1, k2], ctx) == Fill(s1, [k2], ctx);
    assert [k2][1..] == [];
  }

  /** `{{{{a}}}}` */
  function Nested(a: string): string {
    "{{" + (Placeholder(a) + "}}")
  }

  lemma NestedSkip(a: string, key: string, value: string)
    requires BraceFree(a) && BraceFree(key)
    ensures ReplaceAll(Nested(a), Placeholder(key), value) == "{{" + ReplaceAll(Placeholder(a) + "}}", Placeholder(key), value)
  {
    var rest, p := Placeholder(a) + "}}", Placeholder(key);
    PlaceholderChars(a);
    PlaceholderChars(key);
    forall k | 0 <= k < 2 ensures !OccursAt("{{" + rest, p, k) {
      if OccursAt("{{" + rest, p, k) {
        OccursChar("{{" + rest, p, k, 2);
      }
    }
    ReplaceSkip("{{", rest, p, value);
  }

  lemma ClosingUntouched(key: string, value: string)
    ensures ReplaceAll("}}", Placeholder(key), value) == "}}"
  {
    PlaceholderChars(key);
    NoStart("}}", Placeholder(key));
    ReplaceAbsent("}}", Placeholder(key), value);
  }

  lemma NestedReplaced(a: string, value: string)
    requires BraceFree(a)
    ensures ReplaceAll(Nested(a), Placeholder(a), value) == Placeholder(value)
  {
    NestedSkip(a, a, value);
    ReplaceHere("}}", a, value);
    ClosingUntouched(a, value);
  }

  lemma NoStart(s: string, p: string)
    requires p != "" && forall i :: 0 <= i < |s| ==> s[i] != p[0]
    ensures Absent(s, p)
  {
    forall i ensures !OccursAt(s, p, i) {
      if OccursAt(s, p, i) {
        OccursChar(s, p, i, 0);
      }
    }
  }

  lemma NestedUntouched(a: string, b: string, value: string)
    requires BraceFree(a) && BraceFree(b) && a != b
    ensures ReplaceAll(Nested(a), Placeholder(b), value) == Nested(a)
  {
    NestedSkip(a, b, value);
    forall k | 0 <= k < |Placeholder(a)| ensures !OccursAt(Placeholder(a) + "}}", Placeholder(b), k) {
      OtherPlaceholder(a, "}}", b, k);
    }
    ReplaceSkip(Placeholder(a), "}}", Placeholder(b), value);
    ClosingUntouched(b, value);
  }

  /** Brace-free keys and values do not suffice either: the template must not nest braces.
      `{{{{a}}}}`, where a stands for `b` and b for `x`, depends on the order. */
  lemma NestedTemplateDepends(a: string, b: string, x: string)
    requires BraceFree(a) && BraceFree(b) && BraceFree(x) && a != b
    ensures var ctx := map[a := b, b := x];
            && PlainContext(ctx) && OrderOf([a, b], ctx.Keys) && OrderOf([b, a], ctx.Keys)
            && Fill(Nested(a), [a, b], ctx) == x && Fill(Nested(a), [b, a], ctx) == Placeholder(b) != x
  {
    var ctx := map[a := b, b := x];
    assert Fill(Nested(a), [a, b], ctx) == x by {
      NestedReplaced(a, b);
      OneKey(b, b, x);
      FillTwo(Nested(a), a, b, ctx);
    }
    assert Fill(Nested(a), [b, a], ctx) == Placeholder(b) by {
      NestedUntouched(a, b, x);
      NestedReplaced(a, b);
      FillTwo(Nested(a), b, a, ctx);
    }
    PlaceholderChars(b);
  }
}
