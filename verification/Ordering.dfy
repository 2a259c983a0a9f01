/** Python's ordering of strings and of tuples of strings, and `sorted(xs, key=...)`. */
module Ordering {

  /** A sort key: a tuple of strings, compared position by position. */
  type Key = seq<string>

  /** Strings compare lexicographically, character by character. */
  predicate StringLe(a: string, b: string) {
    a == [] || (b != [] && (a[0] < b[0] || (a[0] == b[0] && StringLe(a[1..], b[1..]))))
  }

  /** Tuples compare at the first position where they differ. */
  predicate KeyLe(a: Key, b: Key) {
    a == [] || (b != [] && if a[0] == b[0] then KeyLe(a[1..], b[1..]) else StringLe(a[0], b[0]))
  }

  /** Before `k` the two agree. */
  predicate AgreeBelow(a: string, b: string, k: nat) {
    k <= |a| && k <= |b| && a[..k] == b[..k]
  }

  /** `a` comes no later than `b`: it is a beginning of `b`, or smaller at the first character that differs. */
  lemma {:induction false} StringLeExact(a: string, b: string)
    ensures StringLe(a, b) <==>
      AgreeBelow(a, b, |a|) || exists k :: 0 <= k < |a| && k < |b| && AgreeBelow(a, b, k) && a[k] < b[k]
  {
    if a != [] && b != [] {
      StringLeExact(a[1..], b[1..]);
      if a[0] == b[0] {
        AgreeShift(a, b);
        if k :| 0 <= k < |a| && k < |b| && AgreeBelow(a, b, k) && a[k] < b[k] {
          assert AgreeBelow(a[1..], b[1..], k - 1) && a[1..][k - 1] < b[1..][k - 1];
        }
        if k :| 0 <= k < |a| - 1 && k < |b| - 1 && AgreeBelow(a[1..], b[1..], k) && a[1..][k] < b[1..][k] {
          assert AgreeBelow(a, b, k + 1) && a[k + 1] < b[k + 1];
        }
      } else {
        assert AgreeBelow(a, b, 0);
      }
    }
  }

  lemma AgreeShift(a: string, b: string)
    requires a != [] && b != [] && a[0] == b[0]
    ensures forall k :: 0 < k ==> (AgreeBelow(a, b, k) <==> AgreeBelow(a[1..], b[1..], k - 1))
  {
    forall k | 0 < k && k <= |a| && k <= |b| ensures a[..k] == b[..k] <==> a[1..][..k - 1] == b[1..][..k - 1] {
      assert a[..k] == [a[0]] + a[1..][..k - 1];
      assert b[..k] == [b[0]] + b[1..][..k - 1];
    }
  }

  /** Tuples of one length compare by the strings at the first position where they differ. */
  lemma {:induction false} KeyLeAt(a: Key, b: Key, k: nat)
    requires k < |a| == |b| && a[..k] == b[..k] && a[k] != b[k]
    ensures KeyLe(a, b) <==> StringLe(a[k], b[k])
  {
    if k > 0 {
      assert a[0] == a[..k][0] == b[..k][0] == b[0];
      assert a[1..][..k - 1] == a[..k][1..] && b[1..][..k - 1] == b[..k][1..];
      KeyLeAt(a[1..], b[1..], k - 1);
    }
  }

  lemma {:induction false} StringLeReflexive(a: string)
    ensures StringLe(a, a)
  {
    if a != [] { StringLeReflexive(a[1..]); }
  }

  lemma {:induction false} StringLeAntisymmetric(a: string, b: string)
    requires StringLe(a, b) && StringLe(b, a)
    ensures a == b
  {
    if a != [] {
      StringLeAntisymmetric(a[1..], b[1..]);
      assert a == [a[0]] + a[1..] && b == [b[0]] + b[1..];
    }
  }

  lemma {:induction false} StringLeTransitive(a: string, b: string, c: string)
    requires StringLe(a, b) && StringLe(b, c)
    ensures StringLe(a, c)
  {
    if a != [] && a[0] == b[0] == c[0] { StringLeTransitive(a[1..], b[1..], c[1..]); }
  }

  lemma {:induction false} StringLeTotal(a: string, b: string)
    ensures StringLe(a, b) || StringLe(b, a)
  {
    if a != [] && b != [] && a[0] == b[0] { StringLeTotal(a[1..], b[1..]); }
  }

  lemma {:induction false} KeyLeReflexive(a: Key)
    ensures KeyLe(a, a)
  {
    if a != [] { KeyLeReflexive(a[1..]); }
  }

  lemma {:induction false} KeyLeAntisymmetric(a: Key, b: Key)
    requires KeyLe(a, b) && KeyLe(b, a)
    ensures a == b
  {
    if a != [] {
      if a[0] == b[0] {
        KeyLeAntisymmetric(a[1..], b[1..]);
        assert a == [a[0]] + a[1..] && b == [b[0]] + b[1..];
      } else {
        StringLeAntisymmetric(a[0], b[0]);
      }
    }
  }

  lemma {:induction false} KeyLeTransitive(a: Key, b: Key, c: Key)
    requires KeyLe(a, b) && KeyLe(b, c)
    ensures KeyLe(a, c)
  {
    if a != [] {
      if a[0] == b[0] == c[0] {
        KeyLeTransitive(a[1..], b[1..], c[1..]);
      } else if a[0] != b[0] && b[0] != c[0] {
        StringLeTransitive(a[0], b[0], c[0]);
        if a[0] == c[0] { StringLeAntisymmetric(a[0], b[0]); }
      }
    }
  }

  lemma {:induction false} KeyLeTotal(a: Key, b: Key)
    ensures KeyLe(a, b) || KeyLe(b, a)
  {
    if a != [] && b != [] {
      if a[0] == b[0] { KeyLeTotal(a[1..], b[1..]); } else { StringLeTotal(a[0], b[0]); }
    }
  }

  ghost predicate SortedBy<T>(key: T -> Key, xs: seq<T>) {
    forall i, j :: 0 <= i < j < |xs| ==> KeyLe(key(xs[i]), key(xs[j]))
  }

  /** Sorted with no two equal keys. */
  ghost predicate StrictlySortedBy<T>(key: T -> Key, xs: seq<T>) {
    forall i, j :: 0 <= i < j < |xs| ==> KeyLe(key(xs[i]), key(xs[j])) && key(xs[i]) != key(xs[j])
  }

  /** Insert before the first element whose key is not smaller, which keeps the sort stable. */
  function InsertBy<T>(key: T -> Key, x: T, xs: seq<T>): seq<T> {
    if xs == [] || KeyLe(key(x), key(xs[0])) then [x] + xs else [xs[0]] + InsertBy(key, x, xs[1..])
  }

  lemma {:induction false} InsertByCorrect<T>(key: T -> Key, x: T, xs: seq<T>)
    requires SortedBy(key, xs)
    ensures SortedBy(key, InsertBy(key, x, xs))
    ensures multiset(InsertBy(key, x, xs)) == multiset(xs) + multiset{x}
  {
    if xs != [] {
      assert xs == [xs[0]] + xs[1..];
      if KeyLe(key(x), key(xs[0])) {
        forall j | 0 <= j < |xs| ensures KeyLe(key(x), key(xs[j])) {
          if j > 0 { KeyLeTransitive(key(x), key(xs[0]), key(xs[j])); }
        }
      } else {
        var rest := InsertBy(key, x, xs[1..]);
        InsertByCorrect(key, x, xs[1..]);
        KeyLeTotal(key(x), key(xs[0]));
        forall y | y in rest ensures KeyLe(key(xs[0]), key(y)) {
          assert y in multiset(rest);
          assert y == x || y in xs[1..];
        }
      }
    }
  }

  /** `sorted(xs, key=key)`. */
  function SortBy<T>(key: T -> Key, xs: seq<T>): seq<T> {
    if xs == [] then [] else InsertBy(key, xs[0], SortBy(key, xs[1..]))
  }

  lemma {:induction false} SortByCorrect<T>(key: T -> Key, xs: seq<T>)
    ensures SortedBy(key, SortBy(key, xs))
    ensures multiset(SortBy(key, xs)) == multiset(xs)
  {
    if xs != [] {
      SortByCorrect(key, xs[1..]);
      InsertByCorrect(key, xs[0], SortBy(key, xs[1..]));
      assert xs == [xs[0]] + xs[1..];
    }
  }

  lemma SameElements<T>(xs: seq<T>, ys: seq<T>)
    requires multiset(xs) == multiset(ys)
    ensures |xs| == |ys|
    ensures forall x :: x in xs <==> x in ys
  {
    assert |multiset(xs)| == |xs| && |multiset(ys)| == |ys|;
    forall x ensures x in xs <==> x in ys {
      assert x in multiset(xs) <==> x in multiset(ys);
    }
  }

  /** Elements of `xs` whose keys tie are equal. */
  ghost predicate TiesEqual<T>(key: T -> Key, xs: seq<T>) {
    forall i, j :: 0 <= i < |xs| && 0 <= j < |xs| && key(xs[i]) == key(xs[j]) ==> xs[i] == xs[j]
  }

  lemma SortedHeadsAgree<T>(key: T -> Key, xs: seq<T>, ys: seq<T>)
    requires SortedBy(key, xs) && SortedBy(key, ys) && TiesEqual(key, xs)
    requires xs != [] && ys != [] && xs[0] in ys && ys[0] in xs
    ensures xs[0] == ys[0]
  {
    var i :| 0 <= i < |xs| && xs[i] == ys[0];
    var j :| 0 <= j < |ys| && ys[j] == xs[0];
    if i > 0 && j > 0 { KeyLeAntisymmetric(key(xs[0]), key(ys[0])); }
  }

  lemma TailFacts<T>(key: T -> Key, xs: seq<T>)
    requires xs != [] && SortedBy(key, xs)
    ensures SortedBy(key, xs[1..])
    ensures multiset(xs[1..]) == multiset(xs) - multiset{xs[0]}
  {
    assert xs == [xs[0]] + xs[1..];
  }

  lemma TailTies<T>(key: T -> Key, xs: seq<T>)
    requires xs != [] && TiesEqual(key, xs)
    ensures TiesEqual(key, xs[1..])
  {
  }

  /** Two sorted arrangements of one multiset are equal when elements that tie are equal. */
  lemma {:induction false} SortedArrangementUnique<T>(key: T -> Key, xs: seq<T>, ys: seq<T>)
    requires SortedBy(key, xs) && SortedBy(key, ys) && TiesEqual(key, xs)
    requires multiset(xs) == multiset(ys)
    ensures xs == ys
  {
    SameElements(xs, ys);
    if xs != [] {
      assert xs[0] == ys[0] by {
        assert xs[0] in xs && ys[0] in ys;
        SortedHeadsAgree(key, xs, ys);
      }
      assert xs[1..] == ys[1..] by {
        TailFacts(key, xs);
        TailFacts(key, ys);
        TailTies(key, xs);
        SortedArrangementUnique(key, xs[1..], ys[1..]);
      }
      assert xs == [xs[0]] + xs[1..] && ys == [ys[0]] + ys[1..];
    }
  }

  /** Two strictly sorted lists with the same keys have the same keys in the same places. */
  lemma {:induction false} StrictArrangementUnique<T>(key: T -> Key, xs: seq<T>, ys: seq<T>)
    requires StrictlySortedBy(key, xs) && StrictlySortedBy(key, ys)
    requires forall x :: x in xs ==> exists y :: y in ys && key(y) == key(x)
    requires forall y :: y in ys ==> exists x :: x in xs && key(x) == key(y)
    ensures |xs| == |ys|
    ensures forall i :: 0 <= i < |xs| ==> key(xs[i]) == key(ys[i])
  {
    assert ys != [] ==> ys[0] in ys;
    if xs != [] {
      assert xs[0] in xs;
      assert key(xs[0]) == key(ys[0]) by {
        var y :| y in ys && key(y) == key(xs[0]);
        var x :| x in xs && key(x) == key(ys[0]);
        KeyLeReflexive(key(ys[0]));
        KeyLeAntisymmetric(key(xs[0]), key(ys[0]));
      }
      forall x | x in xs[1..] ensures exists y :: y in ys[1..] && key(y) == key(x) {
        assert x in xs;
        var y :| y in ys && key(y) == key(x);
        assert y == ys[0] || y in ys[1..];
      }
      forall y | y in ys[1..] ensures exists x :: x in xs[1..] && key(x) == key(y) {
        assert y in ys;
        var x :| x in xs && key(x) == key(y);
        assert x == xs[0] || x in xs[1..];
      }
      StrictArrangementUnique(key, xs[1..], ys[1..]);
      forall i | 0 <= i < |xs| ensures |xs| == |ys| && key(xs[i]) == key(ys[i]) {
        if i > 0 { assert xs[i] == xs[1..][i - 1] && ys[i] == ys[1..][i - 1]; }
      }
    }
  }

  /** Sorting a list without repeated keys gives a strictly sorted list. */
  lemma SortByStrict<T>(key: T -> Key, xs: seq<T>)
    requires forall i, j :: 0 <= i < j < |xs| ==> key(xs[i]) != key(xs[j])
    ensures StrictlySortedBy(key, SortBy(key, xs))
  {
    SortByCorrect(key, xs);
    var ys := SortBy(key, xs);
    forall i, j | 0 <= i < j < |ys| ensures key(ys[i]) != key(ys[j]) {
      DistinctSurvivesRearranging(key, xs, ys, i, j);
    }
  }

  lemma DistinctSurvivesRearranging<T>(key: T -> Key, xs: seq<T>, ys: seq<T>, i: nat, j: nat)
    requires forall i, j :: 0 <= i < j < |xs| ==> key(xs[i]) != key(xs[j])
    requires multiset(xs) == multiset(ys) && i < j < |ys|
    ensures key(ys[i]) != key(ys[j])
  {
    SameElements(xs, ys);
    assert ys[i] in xs && ys[j] in xs;
    if ys[i] == ys[j] {
      RepeatedCountsTwice(ys, i, j);
      DistinctKeysCountOnce(key, xs, ys[i]);
    }
  }

  lemma {:induction false} DistinctKeysCountOnce<T>(key: T -> Key, xs: seq<T>, x: T)
    requires forall i, j :: 0 <= i < j < |xs| ==> key(xs[i]) != key(xs[j])
    ensures multiset(xs)[x] <= 1
  {
    if xs != [] {
      DistinctKeysCountOnce(key, xs[1..], x);
      assert xs == [xs[0]] + xs[1..];
      if x == xs[0] { assert x !in xs[1..]; }
    }
  }

  lemma RepeatedCountsTwice<T>(xs: seq<T>, i: nat, j: nat)
    requires i < j < |xs| && xs[i] == xs[j]
    ensures multiset(xs)[xs[i]] >= 2
  {
    assert xs == xs[..j] + xs[j..];
    assert xs[i] in xs[..j] && xs[j] in xs[j..];
    assert multiset(xs) == multiset(xs[..j]) + multiset(xs[j..]);
  }

  /** Sorting a sorted list changes nothing. */
  lemma {:induction false} SortSorted<T>(key: T -> Key, xs: seq<T>)
    requires SortedBy(key, xs)
    ensures SortBy(key, xs) == xs
  {
    if xs != [] {
      SortSorted(key, xs[1..]);
      assert xs == [xs[0]] + xs[1..];
    }
  }

  /** `[f(x) for x in xs]`. */
  function Mapped<T, U>(f: T -> U, xs: seq<T>): seq<U> {
    seq(|xs|, i requires 0 <= i < |xs| => f(xs[i]))
  }

  lemma {:induction false} InsertMapped<T, U>(key: U -> Key, f: T -> U, keyOf: T -> Key, x: T, xs: seq<T>)
    requires keyOf(x) == key(f(x)) && forall y :: y in xs ==> keyOf(y) == key(f(y))
    ensures InsertBy(key, f(x), Mapped(f, xs)) == Mapped(f, InsertBy(keyOf, x, xs))
  {
    var ys := Mapped(f, xs);
    if xs != [] {
      assert xs[0] in xs;
      assert ys[1..] == Mapped(f, xs[1..]);
      if KeyLe(keyOf(x), keyOf(xs[0])) {
        assert [f(x)] + ys == Mapped(f, [x] + xs);
      } else {
        InsertMapped(key, f, keyOf, x, xs[1..]);
        var rest := InsertBy(keyOf, x, xs[1..]);
        assert [ys[0]] + Mapped(f, rest) == Mapped(f, [xs[0]] + rest);
      }
    }
  }

  /** Sorting images by a key is sorting by the key of the image. */
  lemma {:induction false} SortMapped<T, U>(key: U -> Key, f: T -> U, keyOf: T -> Key, xs: seq<T>)
    requires forall y :: y in xs ==> keyOf(y) == key(f(y))
    ensures SortBy(key, Mapped(f, xs)) == Mapped(f, SortBy(keyOf, xs))
  {
    if xs != [] {
      assert Mapped(f, xs)[1..] == Mapped(f, xs[1..]);
      SortMapped(key, f, keyOf, xs[1..]);
      SortByCorrect(keyOf, xs[1..]);
      SameElements(SortBy(keyOf, xs[1..]), xs[1..]);
      assert xs[0] in xs;
      var sorted := SortBy(keyOf, xs[1..]);
      forall y | y in sorted ensures keyOf(y) == key(f(y)) {
        assert y in multiset(sorted);
        assert y in xs[1..];
        assert y in xs;
      }
      InsertMapped(key, f, keyOf, xs[0], sorted);
    }
  }
}
