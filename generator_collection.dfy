// `GeneratorCollection`: a candidate generator built from child generators,
// whose answers are combined by one of three aggregation methods.
module GeneratorCollection {
  import opened CandidateGeneration

  datatype AggregationMethod = First | Intersection | Union

  /** `Builder.DEFAULT_AGGREGATION_MODE`. */
  const DefaultAggregation: AggregationMethod := First

  datatype Collection = Collection(children: seq<Generator>, aggregation: AggregationMethod)

  // ------------------------------------------------------------ aggregations

  /** FIRST: the first child's answer that is not empty, or the empty set. */
  function FirstNonEmpty(children: seq<Generator>, mention: string): (r: set<string>)
    ensures r == {} <==> forall k :: 0 <= k < |children| ==> children[k](mention) == {}
    ensures r != {} ==> exists k :: 0 <= k < |children| && r == children[k](mention)
                                    && forall j :: 0 <= j < k ==> children[j](mention) == {}
  {
    if children == [] then {}
    else if children[0](mention) != {} then children[0](mention)
    else
      var r := FirstNonEmpty(children[1..], mention);
      assert forall k :: 1 <= k < |children| ==> children[k] == children[1..][k - 1];
      r
  }

  /** INTERSECTION: the candidates every child answers; none without
      children. */
  function Meet(children: seq<Generator>, mention: string): (r: set<string>)
    ensures forall c :: c in r <==> children != [] && forall k :: 0 <= k < |children| ==> c in children[k](mention)
  {
    if children == [] then {}
    else if |children| == 1 then children[0](mention)
    else
      var init := children[..|children| - 1];
      var r := Meet(init, mention) * children[|children| - 1](mention);
      assert forall k :: 0 <= k < |init| ==> init[k] == children[k];
      r
  }

  /** UNION: the candidates some child answers. */
  function Join(children: seq<Generator>, mention: string): (r: set<string>)
    ensures forall c :: c in r <==> exists k :: 0 <= k < |children| && c in children[k](mention)
  {
    if children == [] then {}
    else
      var init := children[..|children| - 1];
      var r := Join(init, mention) + children[|children| - 1](mention);
      assert forall k :: 0 <= k < |init| ==> init[k] == children[k];
      r
  }

  /** The intersection is part of every child's answer. */
  lemma MeetWithinEach(children: seq<Generator>, mention: string, k: nat)
    requires k < |children|
    ensures Meet(children, mention) <= children[k](mention)
  {
  }

  /** What `findCandidates` answers under the collection's aggregation. */
  function Candidates(g: Collection, mention: string): set<string>
  {
    match g.aggregation
    case First => FirstNonEmpty(g.children, mention)
    case Intersection => Meet(g.children, mention)
    case Union => Join(g.children, mention)
  }

  /** Whatever the aggregation, every candidate is some child's. */
  lemma CandidatesFromChildren(g: Collection, mention: string)
    ensures Candidates(g, mention) <= Join(g.children, mention)
  {
    match g.aggregation
    case First =>
      if FirstNonEmpty(g.children, mention) != {} {
        var k :| 0 <= k < |g.children| && FirstNonEmpty(g.children, mention) == g.children[k](mention);
      }
    case Intersection =>
      if g.children != [] {
        MeetWithinEach(g.children, mention, 0);
      }
    case Union =>
  }

  // ------------------------------------------------------------ the loops

  /** `FIRST.findCandidates`: ask the children in order and return the first
      non-empty answer. */
  method FindFirst(children: seq<Generator>, mention: string) returns (result: set<string>)
    ensures result == FirstNonEmpty(children, mention)
  {
    var i := 0;
    while i < |children|
      invariant 0 <= i <= |children|
      invariant forall k :: 0 <= k < i ==> children[k](mention) == {}
    {
      result := children[i](mention);
      if result != {} {
        FirstAfterEmpty(children, i, mention);
        return;
      }
      i := i + 1;
    }
    return {};
  }

  /** When the first `n` children answer nothing, FIRST answers as the rest. */
  lemma {:induction false} FirstAfterEmpty(children: seq<Generator>, n: nat, mention: string)
    requires n < |children|
    requires forall k :: 0 <= k < n ==> children[k](mention) == {}
    ensures children[n](mention) != {} ==> FirstNonEmpty(children, mention) == children[n](mention)
  {
    if n > 0 {
      assert children[1..][n - 1] == children[n];
      FirstAfterEmpty(children[1..], n - 1, mention);
    }
  }

  /** `INTERSECTION.findCandidates`: intersect the answers in order, stopping
      as soon as the intersection is empty. */
  method FindIntersection(children: seq<Generator>, mention: string) returns (result: set<string>)
    ensures result == Meet(children, mention)
  {
    var started := false;
    result := {};
    var i := 0;
    while i < |children|
      invariant 0 <= i <= |children|
      invariant started <==> i > 0
      invariant result == Meet(children[..i], mention)
    {
      assert children[..i + 1][..i] == children[..i] && children[..i + 1][i] == children[i];
      if !started {
        result := children[i](mention);
        started := true;
      } else {
        result := result * children[i](mention);
      }
      assert result == Meet(children[..i + 1], mention);
      if result == {} {
        MeetEmptyStaysEmpty(children, i + 1, mention);
        return {};
      }
      i := i + 1;
    }
    assert children[..i] == children;
  }

  /** The intersection over all children lies within the intersection over
      any non-empty prefix, so once a prefix's is empty, so is the whole. */
  lemma MeetEmptyStaysEmpty(children: seq<Generator>, n: nat, mention: string)
    requires 0 < n <= |children|
    ensures Meet(children, mention) <= Meet(children[..n], mention)
  {
    forall c | c in Meet(children, mention)
      ensures c in Meet(children[..n], mention)
    {
      assert forall k :: 0 <= k < n ==> children[..n][k] == children[k];
    }
  }

  /** `UNION.findCandidates`: unite the answers of all children. */
  method FindUnion(children: seq<Generator>, mention: string) returns (result: set<string>)
    ensures result == Join(children, mention)
  {
    result := {};
    var i := 0;
    while i < |children|
      invariant 0 <= i <= |children|
      invariant result == Join(children[..i], mention)
    {
      assert children[..i + 1][..i] == children[..i];
      result := result + children[i](mention);
      i := i + 1;
    }
    assert children[..i] == children;
  }

  /** `findCandidates`: delegate to the aggregation method. */
  method FindCandidates(g: Collection, mention: string) returns (result: set<string>)
    ensures result == Candidates(g, mention)
  {
    match g.aggregation
    case First => result := FindFirst(g.children, mention);
    case Intersection => result := FindIntersection(g.children, mention);
    case Union => result := FindUnion(g.children, mention);
  }

  /** `batchFindCandidates`: every query mapped to its candidates. */
  method BatchFindCandidates(g: Collection, queries: set<string>) returns (m: map<string, set<string>>)
    ensures m.Keys == queries
    ensures forall q :: q in m ==> m[q] == Candidates(g, q)
  {
    m := map[];
    var todo := queries;
    while todo != {}
      invariant todo <= queries && m.Keys == queries - todo
      invariant forall q :: q in m ==> m[q] == Candidates(g, q)
    {
      var q :| q in todo;
      var c := FindCandidates(g, q);
      m := m[q := c];
      todo := todo - {q};
    }
  }

  // ------------------------------------------------------------ the builder

  /** `GeneratorCollection.Builder`: children are appended in order; the
      aggregation starts as the default. */
  class Builder {
    var children: seq<Generator>
    var aggregation: AggregationMethod

    constructor()
      ensures children == [] && aggregation == DefaultAggregation
    {
      children := [];
      aggregation := DefaultAggregation;
    }

    method SetAggregationMethod(a: AggregationMethod)
      modifies this
      ensures aggregation == a && children == old(children)
    {
      aggregation := a;
    }

    method AddChild(generator: Generator)
      modifies this
      ensures children == old(children) + [generator] && aggregation == old(aggregation)
    {
      children := children + [generator];
    }

    method AddChildren(generators: seq<Generator>)
      modifies this
      ensures children == old(children) + generators && aggregation == old(aggregation)
    {
      children := children + generators;
    }

    method Build() returns (g: Collection)
      ensures g == Collection(children, aggregation)
    {
      g := Collection(children, aggregation);
    }
  }

  /** A collection built without choosing an aggregation answers with the
      first child that has candidates. */
  method BuildDefault(generators: seq<Generator>) returns (g: Collection)
    ensures g.children == generators
    ensures forall m :: Candidates(g, m) == FirstNonEmpty(generators, m)
  {
    var b := new Builder();
    b.AddChildren(generators);
    g := b.Build();
  }
}
