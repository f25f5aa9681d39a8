/** Stable sorting by a key, greatest first, and the property that determines it. */
module StableSort {

  /** `x` in front of the first element that does not rank above it. */
  function Insert<T>(x: T, s: seq<T>, key: T -> int): seq<T> {
    if s == [] || key(s[0]) <= key(x) then [x] + s else [s[0]] + Insert(x, s[1..], key)
  }

  function Sort<T>(s: seq<T>, key: T -> int): seq<T> {
    if s == [] then [] else Insert(s[0], Sort(s[1..], key), key)
  }

  ghost predicate Descending<T>(s: seq<T>, key: T -> int) {
    forall i, j :: 0 <= i < j < |s| ==> key(s[i]) >= key(s[j])
  }

  /** The elements with one key, in order. */
  ghost function WithKey<T>(s: seq<T>, key: T -> int, k: int): seq<T> {
    if s == [] then [] else (if key(s[0]) == k then [s[0]] else []) + WithKey(s[1..], key, k)
  }

  /** Descending, and elements with equal keys in their original order. */
  ghost predicate StablySorted<T>(s: seq<T>, r: seq<T>, key: T -> int) {
    Descending(r, key) && forall k :: WithKey(r, key, k) == WithKey(s, key, k)
  }

  lemma {:induction false} InsertElements<T>(x: T, s: seq<T>, key: T -> int)
    ensures multiset(Insert(x, s, key)) == multiset{x} + multiset(s)
    decreases |s|
  {
    if s != [] && key(s[0]) > key(x) {
      InsertElements(x, s[1..], key);
      assert s == [s[0]] + s[1..];
    }
  }

  lemma {:induction false} InsertHead<T>(x: T, s: seq<T>, key: T -> int)
    ensures Insert(x, s, key) != []
    ensures var h := Insert(x, s, key)[0]; if s == [] || key(s[0]) <= key(x) then h == x else h == s[0]
  {
  }

  /** For a sequence it is enough that neighbours are in order. */
  ghost predicate DescendingRec<T>(s: seq<T>, key: T -> int) {
    |s| <= 1 || (key(s[0]) >= key(s[1]) && DescendingRec(s[1..], key))
  }

  lemma {:induction false} RecIsDescending<T>(s: seq<T>, key: T -> int)
    requires DescendingRec(s, key)
    ensures Descending(s, key)
    decreases |s|
  {
    if |s| > 1 {
      RecIsDescending(s[1..], key);
      forall i, j | 0 <= i < j < |s| ensures key(s[i]) >= key(s[j]) {
        assert s[j] == s[1..][j - 1];
        if i > 0 {
          assert s[i] == s[1..][i - 1];
        } else if j > 1 {
          assert key(s[1..][0]) >= key(s[1..][j - 1]);
        }
      }
    }
  }

  lemma {:induction false} InsertDescends<T>(x: T, s: seq<T>, key: T -> int)
    requires DescendingRec(s, key)
    ensures DescendingRec(Insert(x, s, key), key)
    decreases |s|
  {
    var r := Insert(x, s, key);
    if s == [] || key(s[0]) <= key(x) {
      assert r[1..] == s;
    } else {
      InsertDescends(x, s[1..], key);
      InsertHead(x, s[1..], key);
      assert r[1..] == Insert(x, s[1..], key);
    }
  }

  lemma WithKeyCons<T>(x: T, s: seq<T>, key: T -> int, k: int)
    ensures WithKey([x] + s, key, k) == (if key(x) == k then [x] else []) + WithKey(s, key, k)
  {
    assert ([x] + s)[1..] == s;
  }

  lemma {:induction false} InsertIsStable<T>(x: T, s: seq<T>, key: T -> int, k: int)
    ensures WithKey(Insert(x, s, key), key, k) == WithKey([x] + s, key, k)
    decreases |s|
  {
    WithKeyCons(x, s, key, k);
    if s != [] && key(s[0]) > key(x) {
      var tail := s[1..];
      InsertIsStable(x, tail, key, k);
      WithKeyCons(s[0], Insert(x, tail, key), key, k);
      WithKeyCons(x, tail, key, k);
    }
  }

  /** Sorting permutes, sorts, and keeps equals in order. */
  lemma {:induction false} SortIsStable<T>(s: seq<T>, key: T -> int)
    ensures multiset(Sort(s, key)) == multiset(s)
    ensures DescendingRec(Sort(s, key), key) && StablySorted(s, Sort(s, key), key)
    decreases |s|
  {
    if s != [] {
      var rest := Sort(s[1..], key);
      SortIsStable(s[1..], key);
      InsertElements(s[0], rest, key);
      InsertDescends(s[0], rest, key);
      assert s == [s[0]] + s[1..];
      forall k ensures WithKey(Sort(s, key), key, k) == WithKey(s, key, k) {
        InsertIsStable(s[0], rest, key, k);
        WithKeyCons(s[0], rest, key, k);
        WithKeyCons(s[0], s[1..], key, k);
      }
      RecIsDescending(Sort(s, key), key);
    }
  }

  lemma {:induction false} WithKeyHas<T>(s: seq<T>, key: T -> int, i: nat)
    requires i < |s|
    ensures WithKey(s, key, key(s[i])) != []
    decreases |s|
  {
    if i > 0 {
      WithKeyHas(s[1..], key, i - 1);
    }
  }

  lemma {:induction false} WithKeyFrom<T>(s: seq<T>, key: T -> int, k: int)
    requires WithKey(s, key, k) != []
    ensures WithKey(s, key, k)[0] in s && key(WithKey(s, key, k)[0]) == k
    decreases |s|
  {
    if s != [] && key(s[0]) != k {
      WithKeyFrom(s[1..], key, k);
    }
  }

  /** In a descending sequence the head comes first among those with its key, and no other
      sequence with the same classes has a greater element. */
  lemma SameHead<T>(a: seq<T>, b: seq<T>, key: T -> int)
    requires Descending(a, key) && Descending(b, key) && a != []
    requires forall k :: WithKey(a, key, k) == WithKey(b, key, k)
    ensures b != [] && a[0] == b[0]
  {
    WithKeyHas(a, key, 0);
    WithKeyFrom(b, key, key(a[0]));
    WithKeyHas(b, key, 0);
    WithKeyFrom(a, key, key(b[0]));
    assert key(a[0]) == key(b[0]);
    assert WithKey(a, key, key(a[0]))[0] == a[0] && WithKey(b, key, key(a[0]))[0] == b[0];
  }

  lemma NothingToSort<T>(b: seq<T>, key: T -> int)
    requires forall k :: WithKey(b, key, k) == []
    ensures b == []
  {
    if b != [] {
      WithKeyHas(b, key, 0);
    }
  }

  /** There is only one stably sorted arrangement. */
  lemma {:induction false} StableSortUnique<T>(a: seq<T>, b: seq<T>, key: T -> int)
    requires Descending(a, key) && Descending(b, key)
    requires forall k :: WithKey(a, key, k) == WithKey(b, key, k)
    ensures a == b
    decreases |a|
  {
    if a == [] {
      forall k ensures WithKey(b, key, k) == [] {
        assert WithKey(b, key, k) == WithKey(a, key, k);
      }
      NothingToSort(b, key);
    } else {
      SameHead(a, b, key);
      var x, at, bt := a[0], a[1..], b[1..];
      assert a == [x] + at && b == [x] + bt;
      forall k ensures WithKey(at, key, k) == WithKey(bt, key, k) {
        WithKeyCons(x, at, key, k);
        WithKeyCons(x, bt, key, k);
        var p := if key(x) == k then [x] else [];
        assert (p + WithKey(at, key, k))[|p|..] == (p + WithKey(bt, key, k))[|p|..];
      }
      StableSortUnique(at, bt, key);
    }
  }
}
