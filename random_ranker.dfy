// `RandomRanker.rankCandidates`: a Fisher-Yates shuffle of a copy of the
// candidates. The random source is given as the sequence of values its
// `nextInt(bound)` calls return, each below its bound.
module RandomRanker {

  /** `draws[i]` is the value of the i-th `nextInt(n - i)` call of a shuffle
      of `n` candidates: below its bound, as `Random.nextInt` promises. */
  ghost predicate FairDraws(n: nat, draws: seq<nat>)
  {
    n <= |draws| + 1 && forall i :: 0 <= i < n - 1 ==> draws[i] < n - i
  }

  /** `swap(list, i, j)` on a sequence: exchange two positions; nothing
      happens when they are the same. */
  function Swap<T>(s: seq<T>, i: nat, j: nat): (r: seq<T>)
    requires i < |s| && j < |s|
    ensures |r| == |s| && multiset(r) == multiset(s)
    ensures r[i] == s[j] && r[j] == s[i]
    ensures forall k :: 0 <= k < |s| && k != i && k != j ==> r[k] == s[k]
    ensures i == j ==> r == s
  {
    if i == j then s else s[i := s[j]][j := s[i]]
  }

  /** The shuffle from position `i` on: swap position `i` with position
      `i + draws[i]`, then go on from `i + 1`. */
  ghost function ShuffleFrom<T>(s: seq<T>, draws: seq<nat>, i: nat): (r: seq<T>)
    requires i <= |s| && FairDraws(|s|, draws)
    ensures |r| == |s|
    decreases |s| - i
  {
    if i + 1 >= |s| then s
    else ShuffleFrom(Swap(s, i, i + draws[i]), draws, i + 1)
  }

  /** One step of the shuffle keeps what the rest of it will produce. */
  lemma ShuffleFromStep<T>(s: seq<T>, draws: seq<nat>, i: nat, j: nat, target: seq<T>)
    requires i + 1 < |s| && FairDraws(|s|, draws) && j == i + draws[i]
    requires ShuffleFrom(s, draws, i) == target
    ensures j < |s|
    ensures ShuffleFrom(Swap(s, i, j), draws, i + 1) == target
  {
    assert draws[i] < |s| - i;
    assert ShuffleFrom(s, draws, i) == ShuffleFrom(Swap(s, i, j), draws, i + 1);
  }

  /** The ranking `rankCandidates` returns. */
  ghost function Shuffle<T>(s: seq<T>, draws: seq<nat>): seq<T>
    requires FairDraws(|s|, draws)
  {
    ShuffleFrom(s, draws, 0)
  }

  /** The ranking is a permutation of the candidates. */
  lemma {:induction false} ShuffleFromPermutes<T>(s: seq<T>, draws: seq<nat>, i: nat)
    requires i <= |s| && FairDraws(|s|, draws)
    ensures multiset(ShuffleFrom(s, draws, i)) == multiset(s)
    decreases |s| - i
  {
    if i + 1 < |s| {
      var j := i + draws[i];
      ShuffleFromStep(s, draws, i, j, ShuffleFrom(s, draws, i));
      var t := Swap(s, i, j);
      ShuffleFromPermutes(t, draws, i + 1);
      calc {
        multiset(ShuffleFrom(s, draws, i));
        multiset(ShuffleFrom(t, draws, i + 1));
        multiset(t);
        multiset(s);
      }
    }
  }

  lemma ShufflePermutes<T>(s: seq<T>, draws: seq<nat>)
    requires FairDraws(|s|, draws)
    ensures multiset(Shuffle(s, draws)) == multiset(s)
  {
    ShuffleFromPermutes(s, draws, 0);
  }

  /** Positions before `i` are settled: later steps only swap at or after
      `i`. */
  lemma {:induction false} ShuffleFromKeepsPrefix<T>(s: seq<T>, draws: seq<nat>, i: nat)
    requires i <= |s| && FairDraws(|s|, draws)
    ensures ShuffleFrom(s, draws, i)[..i] == s[..i]
    decreases |s| - i
  {
    if i + 1 < |s| {
      var t := Swap(s, i, i + draws[i]);
      ShuffleFromKeepsPrefix(t, draws, i + 1);
      assert t[..i] == s[..i];
      assert ShuffleFrom(t, draws, i + 1)[..i] == ShuffleFrom(t, draws, i + 1)[..i + 1][..i];
    }
  }

  /** The first candidate of the ranking is the one the first draw picks. */
  lemma FirstRankedIsDrawn<T>(s: seq<T>, draws: seq<nat>)
    requires FairDraws(|s|, draws) && |s| >= 2
    ensures Shuffle(s, draws)[0] == s[draws[0]]
  {
    var t := Swap(s, 0, draws[0]);
    ShuffleFromKeepsPrefix(t, draws, 1);
    assert Shuffle(s, draws) == ShuffleFrom(t, draws, 1);
    assert ShuffleFrom(t, draws, 1)[..1][0] == t[..1][0];
  }

  /** Draws that are all zero leave the order unchanged. */
  lemma {:induction false} ZeroDrawsKeepOrder<T>(s: seq<T>, draws: seq<nat>, i: nat)
    requires i <= |s| && FairDraws(|s|, draws)
    requires forall k :: 0 <= k < |s| - 1 ==> draws[k] == 0
    ensures ShuffleFrom(s, draws, i) == s
    decreases |s| - i
  {
    if i + 1 < |s| {
      ZeroDrawsKeepOrder(s, draws, i + 1);
    }
  }

  /** `swap` on the working list. */
  method SwapIn<T>(a: array<T>, i: nat, j: nat)
    requires i < a.Length && j < a.Length
    modifies a
    ensures a[..] == Swap(old(a[..]), i, j)
  {
    if i != j {
      var temp := a[i];
      a[i] := a[j];
      a[j] := temp;
    }
  }

  /** `rankCandidates`: copy the candidates, then swap each position but the
      last with a drawn position at or after it. */
  method RankCandidates<T>(candidates: seq<T>, draws: seq<nat>) returns (ranked: seq<T>)
    requires FairDraws(|candidates|, draws)
    ensures ranked == Shuffle(candidates, draws)
    ensures |ranked| == |candidates| && multiset(ranked) == multiset(candidates)
  {
    var result := new T[|candidates|](k requires 0 <= k < |candidates| => candidates[k]);
    ghost var current := candidates;
    assert result[..] == current;
    ghost var target := Shuffle(candidates, draws);
    var i := 0;
    while i + 1 < result.Length
      invariant 0 <= i <= |candidates| == result.Length == |current|
      invariant result[..] == current
      invariant FairDraws(|current|, draws)
      invariant ShuffleFrom(current, draws, i) == target
    {
      var j := i + draws[i];
      ShuffleFromStep(current, draws, i, j, target);
      SwapIn(result, i, j);
      current := Swap(current, i, j);
      i := i + 1;
    }
    assert ShuffleFrom(current, draws, i) == current;
    ranked := result[..];
    ShufflePermutes(candidates, draws);
  }
}
