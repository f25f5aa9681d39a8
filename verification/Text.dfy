/** Byte strings and the two library searches the string algorithms are built on.
    Every byte the algorithms inspect is ASCII, so a `char` stands for a byte. */
module Text {

  /** `p` occurs in `s` at offset `i`. */
  predicate OccursAt(s: string, p: string, i: int) {
    0 <= i && i + |p| <= |s| && s[i..i + |p|] == p
  }

  ghost predicate Absent(s: string, p: string) {
    forall i :: !OccursAt(s, p, i)
  }

  /** The first occurrence of `p` in `s` at or after `from`, or -1. */
  function IndexFrom(s: string, p: string, from: nat): (r: int)
    requires from <= |s|
    ensures r == -1 || from <= r <= |s| - |p|
    decreases |s| - from
  {
    if OccursAt(s, p, from) then from
    else if from == |s| then -1
    else IndexFrom(s, p, from + 1)
  }

  function Index(s: string, p: string): (r: int)
    ensures r == -1 || 0 <= r <= |s| - |p|
  {
    IndexFrom(s, p, 0)
  }

  lemma {:induction false} IndexFromIsFirst(s: string, p: string, from: nat)
    requires from <= |s|
    ensures var r := IndexFrom(s, p, from);
            && (r == -1 ==> forall i :: from <= i ==> !OccursAt(s, p, i))
            && (r != -1 ==> OccursAt(s, p, r) && forall i :: from <= i < r ==> !OccursAt(s, p, i))
    decreases |s| - from
  {
    if !OccursAt(s, p, from) && from < |s| {
      IndexFromIsFirst(s, p, from + 1);
    }
  }

  /** The search finds an occurrence exactly when there is one, and then the first. */
  lemma IndexIsFirst(s: string, p: string)
    ensures Index(s, p) == -1 <==> Absent(s, p)
    ensures Index(s, p) != -1 ==>
              OccursAt(s, p, Index(s, p)) && forall i :: 0 <= i < Index(s, p) ==> !OccursAt(s, p, i)
  {
    IndexFromIsFirst(s, p, 0);
  }

  lemma IndexUnique(s: string, p: string, i: int)
    requires OccursAt(s, p, i) && forall j :: 0 <= j < i ==> !OccursAt(s, p, j)
    ensures Index(s, p) == i
  {
    IndexIsFirst(s, p);
  }

  /** An occurrence, read character by character. */
  lemma OccursChar(s: string, p: string, i: int, k: int)
    requires OccursAt(s, p, i) && 0 <= k < |p|
    ensures s[i + k] == p[k]
  {
    assert s[i..i + |p|][k] == s[i + k];
  }

  /** An occurrence inside the left part of a concatenation is one of the left part. */
  lemma OccursLeft(x: string, y: string, p: string, i: int)
    requires i + |p| <= |x|
    ensures OccursAt(x + y, p, i) <==> OccursAt(x, p, i)
  {
    if 0 <= i {
      assert (x + y)[i..i + |p|] == x[i..i + |p|];
    }
  }

  /** An occurrence inside the right part of a concatenation is one of the right part. */
  lemma OccursRight(x: string, y: string, p: string, i: int)
    requires |x| <= i
    ensures OccursAt(x + y, p, i) <==> OccursAt(y, p, i - |x|)
  {
    if i + |p| <= |x + y| {
      assert (x + y)[i..i + |p|] == y[i - |x|..i - |x| + |p|];
    }
  }

  /** Behind text in which no occurrence starts, the search finds what it finds without it. */
  lemma IndexShift(x: string, b: string, p: string)
    requires p != "" && forall k :: 0 <= k < |x| ==> !OccursAt(x + b, p, k)
    ensures Index(x + b, p) == if Index(b, p) < 0 then -1 else |x| + Index(b, p)
  {
    var i := Index(b, p);
    IndexIsFirst(b, p);
    IndexIsFirst(x + b, p);
    forall k | |x| <= k ensures OccursAt(x + b, p, k) == OccursAt(b, p, k - |x|) {
      OccursRight(x, b, p, k);
    }
    if i >= 0 {
      assert OccursAt(x + b, p, |x| + i);
      IndexUnique(x + b, p, |x| + i);
    }
  }
}
