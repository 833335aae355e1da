// `Comparators`: constant, reversed, mapped, chained and random comparators,
// each a function from two values to a Java `int`.
module Comparators {
  import opened Wrappers

  /** Java's 32-bit `int`. */
  newtype Int32 = x: int | -0x8000_0000 <= x < 0x8000_0000

  const MinInt: Int32 := -0x8000_0000
  const MaxInt: Int32 := 0x7fff_ffff

  type Comparator<!T> = (T, T) -> Int32

  /** The sign of a comparison: -1, 0 or 1. */
  function Sign(x: Int32): int
  {
    if x < 0 then -1 else if x > 0 then 1 else 0
  }

  /** The comparator contract's antisymmetry: swapping the arguments flips
      the sign of the result. */
  ghost predicate Antisymmetric<T(!new)>(c: Comparator<T>)
  {
    forall a, b :: Sign(c(a, b)) == -Sign(c(b, a))
  }

  // ---------------------------------------------------------------- constants

  datatype Constant = Less | Equal | Greater

  /** `ConstantComparator.compare` ignores its arguments. */
  function ConstantValue(k: Constant): (r: Int32)
    ensures k == Less ==> r == -1
    ensures k == Equal ==> r == 0
    ensures k == Greater ==> r == 1
  {
    match k
    case Less => -1
    case Equal => 0
    case Greater => 1
  }

  function Always<T>(k: Constant): Comparator<T>
  {
    (a: T, b: T) => ConstantValue(k)
  }

  /** Every constant comparator answers -1, 0 or 1, the same for all
      arguments. */
  lemma AlwaysIsConstant<T>(k: Constant, a: T, b: T, c: T, d: T)
    ensures Always<T>(k)(a, b) == Always<T>(k)(c, d)
    ensures Always<T>(k)(a, b) in {-1 as Int32, 0, 1}
  {
  }

  /** `alwaysEqual` meets the contract; `alwaysLess` and `alwaysGreater`
      cannot, since they answer the same for both argument orders. */
  lemma ConstantAntisymmetry<T(!new)>(k: Constant, x: T)
    ensures Antisymmetric(Always<T>(k)) <==> k == Equal
  {
    if k != Equal {
      assert Sign(Always<T>(k)(x, x)) != -Sign(Always<T>(k)(x, x));
    }
  }

  // ----------------------------------------------------------------- reversed

  /** Java's unary minus on `int`: wraps around, so `-MIN_VALUE` is
      `MIN_VALUE`. */
  function WrappingNegate(x: Int32): (r: Int32)
    ensures x != MinInt ==> r as int == -(x as int)
    ensures x == MinInt ==> r == MinInt
  {
    if x == MinInt then MinInt else -x
  }

  /** `ReversedComparator.compare` as written: `-delegate.compare(o1, o2)`. */
  function ReversedAsWritten<T>(c: Comparator<T>): Comparator<T>
  {
    (a: T, b: T) => WrappingNegate(c(a, b))
  }

  /** A comparator on booleans that meets the contract but answers
      `Integer.MIN_VALUE` for (true, false). */
  function MinValueDelegate(a: bool, b: bool): Int32
  {
    if a == b then 0 else if a then MinInt else 1
  }

  /** A delegate answering `Integer.MIN_VALUE` is not reversed: the reversed
      comparator answers `MIN_VALUE` too, and an antisymmetric delegate
      gives a comparator that is not. */
  lemma ReversedAsWrittenKeepsMinValue()
    ensures ReversedAsWritten(MinValueDelegate)(true, false) == MinInt
    ensures Antisymmetric(MinValueDelegate)
    ensures !Antisymmetric(ReversedAsWritten(MinValueDelegate))
  {
    var r := ReversedAsWritten(MinValueDelegate);
    assert r(true, false) == WrappingNegate(MinValueDelegate(true, false)) == MinInt;
    assert r(false, true) == WrappingNegate(MinValueDelegate(false, true)) == -1;
    assert Sign(r(true, false)) != -Sign(r(false, true));
  }

  /** Negation that saturates at `MAX_VALUE`, so the sign always flips. */
  function Negate(x: Int32): (r: Int32)
    ensures Sign(r) == -Sign(x)
    ensures x != MinInt ==> r as int == -(x as int)
  {
    if x == MinInt then MaxInt else -x
  }

  /** `reverse(delegate)`: the delegate's answer with its sign flipped. */
  function Reversed<T>(c: Comparator<T>): Comparator<T>
  {
    (a: T, b: T) => Negate(c(a, b))
  }

  lemma ReversedFlipsSign<T>(c: Comparator<T>, a: T, b: T)
    ensures Sign(Reversed(c)(a, b)) == -Sign(c(a, b))
  {
  }

  lemma ReversedAntisymmetric<T(!new)>(c: Comparator<T>)
    requires Antisymmetric(c)
    ensures Antisymmetric(Reversed(c))
  {
    forall a, b
      ensures Sign(Reversed(c)(a, b)) == -Sign(Reversed(c)(b, a))
    {
      ReversedFlipsSign(c, a, b);
      ReversedFlipsSign(c, b, a);
    }
  }

  // ------------------------------------------------------------------- mapped

  /** `mapped(mapping, delegate)`: compare the images under `mapping`. */
  function Mapped<T, C>(f: T -> C, c: Comparator<C>): Comparator<T>
  {
    (a: T, b: T) => c(f(a), f(b))
  }

  /** Two values with the same image compare equal when the delegate says
      an image equals itself. */
  lemma MappedEqualImages<T, C>(f: T -> C, c: Comparator<C>, a: T, b: T)
    requires f(a) == f(b) && c(f(a), f(a)) == 0
    ensures Mapped(f, c)(a, b) == 0
  {
  }

  lemma MappedAntisymmetric<T(!new), C(!new)>(f: T -> C, c: Comparator<C>)
    requires Antisymmetric(c)
    ensures Antisymmetric(Mapped(f, c))
  {
    forall a, b
      ensures Sign(Mapped(f, c)(a, b)) == -Sign(Mapped(f, c)(b, a))
    {
      assert Sign(c(f(a), f(b))) == -Sign(c(f(b), f(a)));
    }
  }

  // ------------------------------------------------------------------ chained

  /** The answer of a chain: the first child's non-zero answer, or 0. */
  function FirstNonZero<T>(children: seq<Comparator<T>>, a: T, b: T): (r: Int32)
    ensures r == 0 <==> forall k :: 0 <= k < |children| ==> children[k](a, b) == 0
    ensures r != 0 ==> exists k :: 0 <= k < |children| && r == children[k](a, b)
                                   && forall j :: 0 <= j < k ==> children[j](a, b) == 0
  {
    if children == [] then 0
    else if children[0](a, b) != 0 then children[0](a, b)
    else
      var r := FirstNonZero(children[1..], a, b);
      assert forall k :: 1 <= k < |children| ==> children[k] == children[1..][k - 1];
      r
  }

  function Chain<T>(children: seq<Comparator<T>>): Comparator<T>
  {
    (a: T, b: T) => FirstNonZero(children, a, b)
  }

  /** `ChainedComparator.compare`: ask the children in order while the answer
      is 0. */
  method ChainCompare<T>(children: seq<Comparator<T>>, a: T, b: T) returns (result: Int32)
    ensures result == Chain(children)(a, b)
  {
    result := 0;
    var i := 0;
    while result == 0 && i < |children|
      invariant 0 <= i <= |children|
      invariant result == 0 ==> forall k :: 0 <= k < i ==> children[k](a, b) == 0
      invariant result != 0 ==> 0 < i && FirstNonZero(children[i - 1..], a, b) == result
                                && forall k :: 0 <= k < i - 1 ==> children[k](a, b) == 0
    {
      result := children[i](a, b);
      i := i + 1;
    }
    if result == 0 {
      assert forall k :: 0 <= k < |children| ==> children[k](a, b) == 0;
    } else {
      ChainSkipsZeros(children, i - 1, a, b);
    }
  }

  /** When the first `n` children answer 0, the chain answers as its rest. */
  lemma {:induction false} ChainSkipsZeros<T>(children: seq<Comparator<T>>, n: nat, a: T, b: T)
    requires n <= |children|
    requires forall k :: 0 <= k < n ==> children[k](a, b) == 0
    ensures FirstNonZero(children, a, b) == FirstNonZero(children[n..], a, b)
  {
    if n > 0 {
      assert children[1..][n - 1..] == children[n..];
      ChainSkipsZeros(children[1..], n - 1, a, b);
    }
  }

  /** `chain(child1, child2)` is the chain of the two-element list. */
  function Chain2<T>(c1: Comparator<T>, c2: Comparator<T>): Comparator<T>
  {
    Chain([c1, c2])
  }

  /** The two-child chain breaks the first child's ties with the second. */
  lemma Chain2Breaks<T>(c1: Comparator<T>, c2: Comparator<T>, a: T, b: T)
    ensures Chain2(c1, c2)(a, b) == if c1(a, b) != 0 then c1(a, b) else c2(a, b)
  {
    var cs := [c1, c2];
    assert cs[0] == c1 && cs[1..] == [c2];
    assert [c2][0] == c2 && [c2][1..] == [];
    assert FirstNonZero([c2], a, b) == (if c2(a, b) != 0 then c2(a, b) else FirstNonZero([], a, b));
    assert Chain2(c1, c2)(a, b) == FirstNonZero(cs, a, b);
  }

  /** A chain of comparators meeting the contract meets it too. */
  lemma {:induction false} ChainAntisymmetric<T(!new)>(children: seq<Comparator<T>>)
    requires forall k :: 0 <= k < |children| ==> Antisymmetric(children[k])
    ensures Antisymmetric(Chain(children))
  {
    if children != [] {
      ChainAntisymmetric(children[1..]);
      forall a, b
        ensures Sign(FirstNonZero(children, a, b)) == -Sign(FirstNonZero(children, b, a))
      {
        assert Antisymmetric(children[0]);
        assert Sign(children[0](a, b)) == -Sign(children[0](b, a));
        assert Antisymmetric(Chain(children[1..]));
        assert Sign(Chain(children[1..])(a, b)) == -Sign(Chain(children[1..])(b, a));
      }
    }
  }

  // ------------------------------------------------------------------- random

  datatype RandomError = LessOutOfRange | GreaterOutOfRange | SumOutOfRange

  /** The `RandomComparator` constructor's argument checks, in order. */
  function CheckProbabilities(less: real, greater: real): (r: Option<RandomError>)
    ensures r == None <==> 0.0 <= less <= 1.0 && 0.0 <= greater <= 1.0 && less + greater <= 1.0
  {
    if !(0.0 <= less <= 1.0) then Some(LessOutOfRange)
    else if !(0.0 <= greater <= 1.0) then Some(GreaterOutOfRange)
    else if !(less + greater <= 1.0) then Some(SumOutOfRange)
    else None
  }

  /** `RandomComparator.compare`, given the draw `value` of `nextDouble`. */
  function RandomCompare(less: real, greater: real, value: real): (r: Int32)
    ensures r in {-1 as Int32, 0, 1}
    ensures r == -1 <==> value < less
    ensures r == 1 <==> less <= value && value > 1.0 - greater
  {
    if value < less then -1
    else if value > 1.0 - greater then 1
    else 0
  }

  /** With valid probabilities, a draw in [0, 1) answers -1 exactly on
      [0, less), 1 exactly on (1 - greater, 1), and 0 in between. */
  lemma RandomBands(less: real, greater: real, value: real)
    requires CheckProbabilities(less, greater) == None
    requires 0.0 <= value < 1.0
    ensures RandomCompare(less, greater, value) == 1 <==> value > 1.0 - greater
    ensures RandomCompare(less, greater, value) == 0 <==> less <= value <= 1.0 - greater
  {
  }
}
