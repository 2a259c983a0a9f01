/** Totals of a function over a finite set. */
module Sums {

  ghost function Sum<T>(s: set<T>, f: T -> int): int {
    if s == {} then 0
    else
      var x :| x in s;
      f(x) + Sum(s - {x}, f)
  }

  /** The total does not depend on which member is taken first. */
  lemma {:induction false} SumTake<T>(s: set<T>, f: T -> int, y: T)
    requires y in s
    ensures Sum(s, f) == f(y) + Sum(s - {y}, f)
  {
    var x :| x in s && Sum(s, f) == f(x) + Sum(s - {x}, f);
    if x != y {
      SumTake(s - {x}, f, y);
      SumTake(s - {y}, f, x);
      assert s - {x} - {y} == s - {y} - {x};
    }
  }

  lemma {:induction false} SumSame<T>(s: set<T>, f: T -> int, g: T -> int)
    requires forall x :: x in s ==> f(x) == g(x)
    ensures Sum(s, f) == Sum(s, g)
  {
    if s != {} {
      var x :| x in s;
      SumTake(s, f, x);
      SumTake(s, g, x);
      SumSame(s - {x}, f, g);
    }
  }

  lemma {:induction false} SumJoin<T>(s: set<T>, t: set<T>, f: T -> int)
    requires s !! t
    ensures Sum(s + t, f) == Sum(s, f) + Sum(t, f)
  {
    if s == {} {
      assert s + t == t;
    } else {
      var x :| x in s;
      SumTake(s, f, x);
      SumTake(s + t, f, x);
      SumJoin(s - {x}, t, f);
      assert s + t - {x} == (s - {x}) + t;
    }
  }

  lemma {:induction false} SumOfNone<T>(s: set<T>, f: T -> int)
    requires forall x :: x in s ==> f(x) == 0
    ensures Sum(s, f) == 0
  {
    if s != {} {
      var x :| x in s;
      SumTake(s, f, x);
      SumOfNone(s - {x}, f);
    }
  }

  lemma {:induction false} SumDifference<T>(s: set<T>, f: T -> int, g: T -> int, h: T -> int)
    requires forall x :: x in s ==> h(x) == f(x) - g(x)
    ensures Sum(s, h) == Sum(s, f) - Sum(s, g)
  {
    if s != {} {
      var x :| x in s;
      SumTake(s, f, x);
      SumTake(s, g, x);
      SumTake(s, h, x);
      SumDifference(s - {x}, f, g, h);
    }
  }

  lemma {:induction false} SumNotPositive<T>(s: set<T>, f: T -> int)
    requires forall x :: x in s ==> f(x) <= 0
    ensures Sum(s, f) <= 0
  {
    if s != {} {
      var x :| x in s;
      SumTake(s, f, x);
      SumNotPositive(s - {x}, f);
    }
  }

  /** Changing the function at one member changes the total by as much. */
  lemma SumBump<T>(s: set<T>, f: T -> int, g: T -> int, y: T)
    requires y in s && forall x :: x in s && x != y ==> f(x) == g(x)
    ensures Sum(s, g) == Sum(s, f) + g(y) - f(y)
  {
    SumTake(s, f, y);
    SumTake(s, g, y);
    SumSame(s - {y}, f, g);
  }
}
