// `ConfusionMatrixBuilder`: labels receive consecutive indices in the order
// they are first added, results are tallied as (actual, predicted, count)
// entries, and `build` fills a square array of counts indexed by label index.
module ConfusionBuilder {
  import opened Wrappers

  /** One `results.add(new Result(actual, predicted), occurrences)`. `Result`
      does not override `equals`, so every call adds an entry of its own. */
  datatype Tally<T> = Tally(actual: T, predicted: T, count: nat)

  datatype BuildError =
    | NegativeOccurrences(occurrences: int)  // `Multiset.add` with a negative count
    | NoLabels                               // `checkState(!labelIndex.isEmpty())`

  /** The total count of the entries for the pair (`actual`, `predicted`). */
  function PairCount<T(==)>(results: seq<Tally<T>>, actual: T, predicted: T): nat
  {
    if results == [] then 0
    else
      var e := results[|results| - 1];
      PairCount(results[..|results| - 1], actual, predicted)
      + (if e.actual == actual && e.predicted == predicted then e.count else 0)
  }

  lemma PairCountStep<T>(results: seq<Tally<T>>, k: nat, actual: T, predicted: T)
    requires k < |results|
    ensures PairCount(results[..k + 1], actual, predicted) == PairCount(results[..k], actual, predicted)
              + (if results[k].actual == actual && results[k].predicted == predicted then results[k].count else 0)
  {
    assert results[..k + 1][..k] == results[..k];
  }

  /** The number of results tallied. */
  function TotalCount<T>(results: seq<Tally<T>>): nat
  {
    if results == [] then 0 else TotalCount(results[..|results| - 1]) + results[|results| - 1].count
  }

  function RowSum(i: int, n: nat, f: (int, int) -> int): int
  {
    if n == 0 then 0 else RowSum(i, n - 1, f) + f(i, n - 1)
  }

  /** The sum of `f(i, j)` over `0 <= i < m` and `0 <= j < n`. */
  function GridSum(m: nat, n: nat, f: (int, int) -> int): int
  {
    if m == 0 then 0 else GridSum(m - 1, n, f) + RowSum(m - 1, n, f)
  }

  lemma {:induction false} RowSumAdd(i: int, n: nat, f: (int, int) -> int, g: (int, int) -> int, h: (int, int) -> int)
    requires forall j :: 0 <= j < n ==> f(i, j) == g(i, j) + h(i, j)
    ensures RowSum(i, n, f) == RowSum(i, n, g) + RowSum(i, n, h)
  {
    if n > 0 {
      RowSumAdd(i, n - 1, f, g, h);
    }
  }

  lemma {:induction false} GridSumAdd(m: nat, n: nat, f: (int, int) -> int, g: (int, int) -> int, h: (int, int) -> int)
    requires forall i, j :: 0 <= i < m && 0 <= j < n ==> f(i, j) == g(i, j) + h(i, j)
    ensures GridSum(m, n, f) == GridSum(m, n, g) + GridSum(m, n, h)
  {
    if m > 0 {
      GridSumAdd(m - 1, n, f, g, h);
      RowSumAdd(m - 1, n, f, g, h);
    }
  }

  /** A row holding `c` in column `b` and zero elsewhere sums to `c` when
      `b` is one of its columns, and a row of zeros to zero. */
  lemma {:induction false} RowSumSingle(i: int, n: nat, f: (int, int) -> int, b: int, c: int)
    requires forall j :: 0 <= j < n ==> f(i, j) == (if j == b then c else 0)
    ensures RowSum(i, n, f) == (if 0 <= b < n then c else 0)
  {
    if n > 0 {
      RowSumSingle(i, n - 1, f, b, c);
    }
  }

  /** A grid holding `c` in cell (`a`, `b`) and zero elsewhere sums to `c`. */
  lemma {:induction false} GridSumSingle(m: nat, n: nat, f: (int, int) -> int, a: int, b: int, c: int)
    requires 0 <= a < m && 0 <= b < n
    requires forall i, j :: 0 <= i < m && 0 <= j < n ==> f(i, j) == (if i == a && j == b then c else 0)
    ensures GridSum(m, n, f) == c
  {
    GridSumSingleUpTo(m, n, f, a, b, c);
  }

  lemma {:induction false} GridSumSingleUpTo(m: nat, n: nat, f: (int, int) -> int, a: int, b: int, c: int)
    requires 0 <= a && 0 <= b < n
    requires forall i, j :: 0 <= i < m && 0 <= j < n ==> f(i, j) == (if i == a && j == b then c else 0)
    ensures GridSum(m, n, f) == (if a < m then c else 0)
  {
    if m > 0 {
      GridSumSingleUpTo(m - 1, n, f, a, b, c);
      if m - 1 == a {
        RowSumSingle(m - 1, n, f, b, c);
      } else {
        RowSumSingle(m - 1, n, f, b, 0);
      }
    }
  }

  lemma {:induction false} RowSumZero(i: int, n: nat, f: (int, int) -> int)
    requires forall j :: 0 <= j < n ==> f(i, j) == 0
    ensures RowSum(i, n, f) == 0
  {
    if n > 0 {
      RowSumZero(i, n - 1, f);
    }
  }

  lemma {:induction false} GridSumZero(m: nat, n: nat, f: (int, int) -> int)
    requires forall i, j :: 0 <= i < m && 0 <= j < n ==> f(i, j) == 0
    ensures GridSum(m, n, f) == 0
  {
    if m > 0 {
      GridSumZero(m - 1, n, f);
      RowSumZero(m - 1, n, f);
    }
  }

  /** `labels` lists distinct labels, one per index. */
  predicate Distinct<T(==)>(labels: seq<T>)
  {
    forall i, j :: 0 <= i < j < |labels| ==> labels[i] != labels[j]
  }

  /** The labels of `ls` that are not `known`, each once, in the order of
      their first appearance in `ls`. */
  function NewLabels<T(==)>(known: set<T>, ls: seq<T>): (r: seq<T>)
    ensures forall l :: l in r ==> l !in known && l in ls
    ensures forall k :: 0 <= k < |ls| && ls[k] !in known ==> ls[k] in r
    ensures Distinct(r)
  {
    if ls == [] then []
    else
      var prior := NewLabels(known, ls[..|ls| - 1]);
      var l := ls[|ls| - 1];
      if l in known || l in prior then prior else prior + [l]
  }

  /** One more element of `ls` adds itself to the new labels when it is
      neither known nor already among them. */
  lemma NewLabelsStep<T>(known: set<T>, ls: seq<T>, i: nat)
    requires i < |ls|
    ensures var prior := NewLabels(known, ls[..i]);
            NewLabels(known, ls[..i + 1]) == if ls[i] in known || ls[i] in prior then prior else prior + [ls[i]]
  {
    assert ls[..i + 1][..i] == ls[..i];
  }

  /** Summed over every (actual, predicted) pair of distinct labels that
      cover all results, the pair counts give the total number of results:
      the cells of the matrix add up to the number of results. */
  /** The matrix as a function of (row, column): the pair count of the
      labels at those indices. */
  function CellCounts<T(==)>(labels: seq<T>, results: seq<Tally<T>>): (int, int) -> int
  {
    (i, j) => if 0 <= i < |labels| && 0 <= j < |labels| then PairCount(results, labels[i], labels[j]) else 0
  }

  lemma {:induction false} CellsSumToTotal<T>(labels: seq<T>, results: seq<Tally<T>>)
    requires Distinct(labels)
    requires forall k :: 0 <= k < |results| ==> results[k].actual in labels && results[k].predicted in labels
    ensures GridSum(|labels|, |labels|, CellCounts(labels, results)) == TotalCount(results)
  {
    var n := |labels|;
    var f := CellCounts(labels, results);
    if results == [] {
      GridSumZero(n, n, f);
    } else {
      var init := results[..|results| - 1];
      var e := results[|results| - 1];
      CellsSumToTotal(labels, init);
      var g := CellCounts(labels, init);
      var a :| 0 <= a < n && labels[a] == e.actual;
      var b :| 0 <= b < n && labels[b] == e.predicted;
      var h := (i, j) => if i == a && j == b then e.count else 0;
      forall i, j | 0 <= i < n && 0 <= j < n
        ensures h(i, j) == (if labels[i] == e.actual && labels[j] == e.predicted then e.count else 0)
      {
        assert labels[i] == e.actual <==> i == a;
        assert labels[j] == e.predicted <==> j == b;
      }
      GridSumAdd(n, n, f, g, h);
      GridSumSingle(n, n, h, a, b, e.count);
    }
  }

  class ConfusionMatrixBuilder<T(==)> {
    var labelIndexMap: map<T, nat>
    var nextLabelIndex: nat
    var results: seq<Tally<T>>
    /** The labels in index order. */
    ghost var labels: seq<T>

    /** Label indices run from 0 to `nextLabelIndex - 1`, one per label, and
        every result's labels have one. */
    ghost predicate Valid()
      reads this
    {
      && |labels| == nextLabelIndex
      && (forall i :: 0 <= i < |labels| ==> labels[i] in labelIndexMap && labelIndexMap[labels[i]] == i)
      && (forall l :: l in labelIndexMap ==> labelIndexMap[l] < |labels| && labels[labelIndexMap[l]] == l)
      && (forall k :: 0 <= k < |results| ==> results[k].actual in labelIndexMap && results[k].predicted in labelIndexMap)
    }

    constructor()
      ensures Valid() && labelIndexMap == map[] && nextLabelIndex == 0 && results == []
    {
      labelIndexMap := map[];
      nextLabelIndex := 0;
      results := [];
      labels := [];
    }

    /** The indices are exactly `0 .. nextLabelIndex - 1`, and distinct
        labels have distinct indices. */
    lemma IndicesAreRange()
      requires Valid()
      ensures forall i :: i in labelIndexMap.Values <==> 0 <= i < nextLabelIndex
      ensures forall l, m :: l in labelIndexMap && m in labelIndexMap && l != m ==> labelIndexMap[l] != labelIndexMap[m]
      ensures Distinct(labels)
    {
      forall i | 0 <= i < nextLabelIndex
        ensures i in labelIndexMap.Values
      {
        assert labelIndexMap[labels[i]] == i;
      }
      forall i, j | 0 <= i < j < |labels|
        ensures labels[i] != labels[j]
      {
        assert labelIndexMap[labels[i]] != labelIndexMap[labels[j]];
      }
    }

    /** `addLabel`: a label not seen before receives the next index; a known
        label keeps its index. */
    method AddLabel(l: T)
      requires Valid()
      modifies this
      ensures Valid() && results == old(results)
      ensures labels == old(labels) + (if l in old(labelIndexMap) then [] else [l])
      ensures l in old(labelIndexMap) ==>
        labelIndexMap == old(labelIndexMap) && nextLabelIndex == old(nextLabelIndex)
      ensures l !in old(labelIndexMap) ==>
        && labelIndexMap == old(labelIndexMap)[l := old(nextLabelIndex)]
        && nextLabelIndex == old(nextLabelIndex) + 1
    {
      if l !in labelIndexMap {
        labelIndexMap := labelIndexMap[l := nextLabelIndex];
        labels := labels + [l];
        nextLabelIndex := nextLabelIndex + 1;
      }
    }

    /** `addAllLabels`: `addLabel` for each label in turn. */
    method AddAllLabels(ls: seq<T>)
      requires Valid()
      modifies this
      ensures Valid() && results == old(results)
      ensures forall l :: l in labelIndexMap <==> l in old(labelIndexMap) || l in ls
      ensures forall l :: l in old(labelIndexMap) ==> labelIndexMap[l] == old(labelIndexMap)[l]
      ensures labels == old(labels) + NewLabels(old(labelIndexMap).Keys, ls)
      ensures nextLabelIndex == old(nextLabelIndex) + |NewLabels(old(labelIndexMap).Keys, ls)|
      ensures var added := NewLabels(old(labelIndexMap).Keys, ls);
              forall k :: 0 <= k < |added| ==> added[k] in labelIndexMap && labelIndexMap[added[k]] == old(nextLabelIndex) + k
    {
      ghost var known := labelIndexMap.Keys;
      ghost var prior := labels;
      KeysAreLabels();
      var i := 0;
      while i < |ls|
        invariant 0 <= i <= |ls| && Valid() && results == old(results)
        invariant labels == prior + NewLabels(known, ls[..i])
      {
        KeysAreLabels();
        NewLabelsStep(known, ls, i);
        AddLabel(ls[i]);
        i := i + 1;
      }
      assert ls[..i] == ls;
      KeysAreLabels();
      AppendedIndices(prior, NewLabels(known, ls));
      forall l | l in old(labelIndexMap)
        ensures labelIndexMap[l] == old(labelIndexMap)[l]
      {
        assert labels[old(labelIndexMap)[l]] == l;
      }
    }

    /** The labels with an index are exactly those listed. */
    lemma KeysAreLabels()
      requires Valid()
      ensures forall l :: l in labelIndexMap <==> l in labels
    {
      forall l | l in labels
        ensures l in labelIndexMap
      {
        var i :| 0 <= i < |labels| && labels[i] == l;
      }
    }

    /** Labels appended after `prior` have the indices that follow it. */
    lemma AppendedIndices(prior: seq<T>, added: seq<T>)
      requires Valid() && labels == prior + added
      ensures forall k :: 0 <= k < |added| ==> added[k] in labelIndexMap && labelIndexMap[added[k]] == |prior| + k
    {
      forall k | 0 <= k < |added|
        ensures added[k] in labelIndexMap && labelIndexMap[added[k]] == |prior| + k
      {
        assert labels[|prior| + k] == added[k];
      }
    }

    /** `addResults`: register both labels, then tally the pair
        `occurrences` times. A negative count fails after the labels are
        registered; a zero count adds no entry. */
    method AddResults(actual: T, predicted: T, occurrences: int) returns (r: Outcome<BuildError>)
      requires Valid()
      modifies this
      ensures Valid()
      ensures actual in labelIndexMap && predicted in labelIndexMap
      ensures labelIndexMap.Keys == old(labelIndexMap).Keys + {actual, predicted}
      ensures forall l :: l in old(labelIndexMap) ==> labelIndexMap[l] == old(labelIndexMap)[l]
      ensures occurrences < 0 ==> r == Fail(NegativeOccurrences(occurrences)) && results == old(results)
      ensures occurrences == 0 ==> r == Pass && results == old(results)
      ensures occurrences > 0 ==> r == Pass && results == old(results) + [Tally(actual, predicted, occurrences)]
    {
      AddLabel(actual);
      AddLabel(predicted);
      if occurrences < 0 {
        return Fail(NegativeOccurrences(occurrences));
      }
      if occurrences > 0 {
        results := results + [Tally(actual, predicted, occurrences)];
      }
      r := Pass;
    }

    /** `addResult`: one occurrence. */
    method AddResult(actual: T, predicted: T)
      requires Valid()
      modifies this
      ensures Valid()
      ensures labelIndexMap.Keys == old(labelIndexMap).Keys + {actual, predicted}
      ensures forall l :: l in old(labelIndexMap) ==> labelIndexMap[l] == old(labelIndexMap)[l]
      ensures results == old(results) + [Tally(actual, predicted, 1)]
    {
      var r := AddResults(actual, predicted, 1);
    }

    /** The count array of `build`: cell [i][j] holds the total count of
        results whose actual label has index i and whose predicted label has
        index j. Without labels the builder refuses. */
    method Build() returns (r: Result<array2<int>, BuildError>)
      requires Valid()
      ensures labelIndexMap == map[] ==> r == Err(NoLabels)
      ensures labelIndexMap != map[] ==> r.Ok? && fresh(r.value)
      ensures r.Ok? ==> r.value.Length0 == nextLabelIndex && r.value.Length1 == nextLabelIndex
      ensures r.Ok? ==> forall i, j :: 0 <= i < nextLabelIndex && 0 <= j < nextLabelIndex ==>
                          r.value[i, j] == PairCount(results, labels[i], labels[j])
    {
      if labelIndexMap == map[] {
        return Err(NoLabels);
      }
      IndicesAreRange();
      var size := nextLabelIndex;
      var counts := new int[size, size]((i, j) => 0);
      var k := 0;
      while k < |results|
        invariant 0 <= k <= |results|
        invariant forall i, j :: 0 <= i < size && 0 <= j < size ==> counts[i, j] == PairCount(results[..k], labels[i], labels[j])
      {
        var e := results[k];
        var row := labelIndexMap[e.actual];
        var col := labelIndexMap[e.predicted];
        forall i, j | 0 <= i < size && 0 <= j < size
          ensures labels[i] == e.actual && labels[j] == e.predicted <==> i == row && j == col
        {
        }
        counts[row, col] := counts[row, col] + e.count;
        forall i, j | 0 <= i < size && 0 <= j < size
          ensures counts[i, j] == PairCount(results[..k + 1], labels[i], labels[j])
        {
          PairCountStep(results, k, labels[i], labels[j]);
        }
        k := k + 1;
      }
      assert results[..k] == results;
      r := Ok(counts);
    }

    /** The cells of the built matrix add up to the number of results. */
    lemma BuiltCellsSumToTotal()
      requires Valid()
      ensures GridSum(|labels|, |labels|, CellCounts(labels, results)) == TotalCount(results)
    {
      IndicesAreRange();
      forall k | 0 <= k < |results|
        ensures results[k].actual in labels && results[k].predicted in labels
      {
        assert labels[labelIndexMap[results[k].actual]] == results[k].actual;
        assert labels[labelIndexMap[results[k].predicted]] == results[k].predicted;
      }
      CellsSumToTotal(labels, results);
    }
  }
}
