// Sums of real-valued terms over finite sets. Python's and Java's scorers add
// up per-mention scores while iterating hash sets in an unspecified order; the
// specifications state those totals as set sums, and the lemmas here show that
// the order of iteration does not matter.
module Sums {

  /** Some element of a non-empty set. */
  ghost function Pick<T>(s: set<T>): (x: T)
    requires s != {}
    ensures x in s
  {
    var x :| x in s; x
  }

  /** The sum of `f(x)` over the elements `x` of `s`. */
  ghost function Sum<T>(s: set<T>, f: T -> real): real
  {
    if s == {} then 0.0 else f(Pick(s)) + Sum(s - {Pick(s)}, f)
  }

  /** Any element may be taken out first: the sum does not depend on which
      element the iteration visits next. */
  lemma {:induction false} SumRemove<T>(s: set<T>, f: T -> real, y: T)
    requires y in s
    ensures Sum(s, f) == f(y) + Sum(s - {y}, f)
    decreases |s|
  {
    var x := Pick(s);
    if x != y {
      assert y in s - {x};
      SumRemove(s - {x}, f, y);
      assert s - {x} - {y} == s - {y} - {x};
      assert x in s - {y};
      SumRemove(s - {y}, f, x);
    }
  }

  lemma SumSingleton<T>(x: T, f: T -> real)
    ensures Sum({x}, f) == f(x)
  {
    SumRemove({x}, f, x);
    assert {x} - {x} == {};
  }

  /** Adding an element that is not yet present adds its term. */
  lemma SumInsert<T>(s: set<T>, f: T -> real, y: T)
    requires y !in s
    ensures Sum(s + {y}, f) == Sum(s, f) + f(y)
  {
    SumRemove(s + {y}, f, y);
    assert s + {y} - {y} == s;
  }

  /** One step of a loop that visits the elements of `all` in any order: moving
      `y` from the unvisited elements `rest` to the visited ones adds its term. */
  lemma SumStep<T>(all: set<T>, rest: set<T>, f: T -> real, y: T)
    requires rest <= all && y in rest
    ensures Sum(all - (rest - {y}), f) == Sum(all - rest, f) + f(y)
  {
    assert all - (rest - {y}) == (all - rest) + {y};
    SumInsert(all - rest, f, y);
  }

  /** Terms that agree on `s` give the same sum. */
  lemma {:induction false} SumCongruent<T>(s: set<T>, f: T -> real, g: T -> real)
    requires forall x :: x in s ==> f(x) == g(x)
    ensures Sum(s, f) == Sum(s, g)
    decreases |s|
  {
    if s != {} {
      var x :| x in s;
      SumRemove(s, f, x);
      SumRemove(s, g, x);
      SumCongruent(s - {x}, f, g);
    }
  }

  /** Non-negative terms give a non-negative sum. */
  lemma {:induction false} SumNonNegative<T>(s: set<T>, f: T -> real)
    requires forall x :: x in s ==> 0.0 <= f(x)
    ensures 0.0 <= Sum(s, f)
    decreases |s|
  {
    if s != {} {
      var x := Pick(s);
      SumNonNegative(s - {x}, f);
    }
  }

  /** Terms at most 1 give a sum of at most the number of elements. */
  lemma {:induction false} SumAtMostCount<T>(s: set<T>, f: T -> real)
    requires forall x :: x in s ==> f(x) <= 1.0
    ensures Sum(s, f) <= |s| as real
    decreases |s|
  {
    if s != {} {
      var x := Pick(s);
      SumAtMostCount(s - {x}, f);
    }
  }

  /** Terms all equal to 1 sum to the number of elements. */
  lemma {:induction false} SumCount<T>(s: set<T>, f: T -> real)
    requires forall x :: x in s ==> f(x) == 1.0
    ensures Sum(s, f) == |s| as real
    decreases |s|
  {
    if s != {} {
      var x := Pick(s);
      SumCount(s - {x}, f);
    }
  }

  /** Terms all equal to 0 sum to 0. */
  lemma {:induction false} SumZero<T>(s: set<T>, f: T -> real)
    requires forall x :: x in s ==> f(x) == 0.0
    ensures Sum(s, f) == 0.0
    decreases |s|
  {
    if s != {} {
      var x := Pick(s);
      SumZero(s - {x}, f);
    }
  }

  /** Sums are monotone in their terms. */
  lemma {:induction false} SumMonotone<T>(s: set<T>, f: T -> real, g: T -> real)
    requires forall x :: x in s ==> f(x) <= g(x)
    ensures Sum(s, f) <= Sum(s, g)
    decreases |s|
  {
    if s != {} {
      var x :| x in s;
      SumRemove(s, f, x);
      SumRemove(s, g, x);
      SumMonotone(s - {x}, f, g);
    }
  }

  /** A sum of positive terms over a non-empty set is positive. */
  lemma SumPositive<T>(s: set<T>, f: T -> real)
    requires s != {}
    requires forall x :: x in s ==> f(x) > 0.0
    ensures Sum(s, f) > 0.0
  {
    var x :| x in s;
    SumRemove(s, f, x);
    SumNonNegative(s - {x}, f);
  }

  /** The sum of `f(x)` over the elements of a sequence, left to right. */
  ghost function SeqSum<T>(xs: seq<T>, f: T -> real): real
  {
    if xs == [] then 0.0 else SeqSum(xs[..|xs| - 1], f) + f(xs[|xs| - 1])
  }

  lemma SeqSumAppend<T>(xs: seq<T>, f: T -> real, y: T)
    ensures SeqSum(xs + [y], f) == SeqSum(xs, f) + f(y)
  {
    assert (xs + [y])[..|xs|] == xs;
  }

  /** Summing a sequence without repetitions is summing the set of its elements,
      whatever the order of the sequence. */
  lemma {:induction false} SeqSumIsSum<T>(xs: seq<T>, f: T -> real)
    requires forall i, j :: 0 <= i < j < |xs| ==> xs[i] != xs[j]
    ensures SeqSum(xs, f) == Sum((set x | x in xs), f)
  {
    if xs != [] {
      var init := xs[..|xs| - 1];
      var last := xs[|xs| - 1];
      SeqSumIsSum(init, f);
      assert (set x | x in xs) == (set x | x in init) + {last};
      assert last !in (set x | x in init);
      SumInsert((set x | x in init), f, last);
    }
  }
}
