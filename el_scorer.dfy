// The TAC-KBP 2011 entity-linking scorer: it reads gold and system linkings,
// inverts each into a mention -> KB id index, and scores the system by B-cubed
// precision and recall, in the original form (B2) and in the form extended
// for entity linking (B3), where NIL identifiers are compared by prefix.
module ElScorer {
  import opened Wrappers
  import opened Text
  import opened Sums

  /** A linking: each KB id mapped to the set of mentions linked to it. */
  type Clustering = map<string, set<string>>

  /** The inverse of a linking: each mention mapped to its KB id. */
  type Index = map<string, string>

  // ---------------------------------------------------------------------
  // Reading linkings

  /** A line with fewer than two fields makes the scorer fail with an
      IndexError on the field it cannot find. */
  datatype ReadError = MissingField(line: nat)

  /** The (mention, KB id) pair a line denotes, both passed through the
      upper-casing oracle; None when the line has fewer than two fields. */
  function LinkOf(line: string, upper: string -> string): (r: Option<(string, string)>)
    ensures r.Some? <==> |Fields(line)| >= 2
  {
    var d := Fields(line);
    if |d| < 2 then None else Some((upper(d[0]), upper(d[1])))
  }

  /** The set of (mention, KB id) pairs the first `n` well-formed lines denote. */
  ghost function PairsOf(lines: seq<string>, n: nat, upper: string -> string): set<(string, string)>
    requires n <= |lines|
  {
    if n == 0 then {}
    else
      var link := LinkOf(lines[n - 1], upper);
      PairsOf(lines, n - 1, upper) + (if link.Some? then {link.value} else {})
  }

  /** The linking the first `n` lines build when read in order: each
      well-formed line adds its mention to the cluster of its KB id. */
  ghost function Group(lines: seq<string>, n: nat, upper: string -> string): Clustering
    requires n <= |lines|
  {
    if n == 0 then map[]
    else
      var linking := Group(lines, n - 1, upper);
      match LinkOf(lines[n - 1], upper)
      case None => linking
      case Some((mention, kbId)) =>
        linking[kbId := (if kbId in linking then linking[kbId] else {}) + {mention}]
  }

  /** readLinking: groups the mentions of the lines by KB id, failing at the
      first line with fewer than two fields. */
  method ReadLinking(lines: seq<string>, upper: string -> string) returns (r: Result<Clustering, ReadError>)
    ensures r.Ok? <==> forall j :: 0 <= j < |lines| ==> LinkOf(lines[j], upper).Some?
    ensures r.Err? ==>
      && r.error.line < |lines| && LinkOf(lines[r.error.line], upper).None?
      && forall j :: 0 <= j < r.error.line ==> LinkOf(lines[j], upper).Some?
    ensures r.Ok? ==> r.value == Group(lines, |lines|, upper)
  {
    var linking: Clustering := map[];
    var i := 0;
    while i < |lines|
      invariant 0 <= i <= |lines|
      invariant AllLinks(lines, i, upper)
      invariant linking == Group(lines, i, upper)
    {
      var link := LinkOf(lines[i], upper);
      if link.None? {
        AllLinksEvery(lines, i, upper);
        return Err(MissingField(i));
      }
      var (mention, kbId) := link.value;
      GroupStep(lines, i, upper);
      var cluster := if kbId in linking then linking[kbId] else {};
      linking := linking[kbId := cluster + {mention}];
      i := i + 1;
    }
    AllLinksEvery(lines, i, upper);
    return Ok(linking);
  }

  /** Reading one more well-formed line adds its mention to its cluster. */
  lemma GroupStep(lines: seq<string>, i: nat, upper: string -> string)
    requires i < |lines| && LinkOf(lines[i], upper).Some?
    ensures var linking := Group(lines, i, upper);
      var (mention, kbId) := LinkOf(lines[i], upper).value;
      Group(lines, i + 1, upper) == linking[kbId := (if kbId in linking then linking[kbId] else {}) + {mention}]
    ensures AllLinks(lines, i, upper) ==> AllLinks(lines, i + 1, upper)
  {
  }

  /** Each of the first `n` lines has at least two fields. */
  ghost predicate AllLinks(lines: seq<string>, n: nat, upper: string -> string)
    requires n <= |lines|
  {
    n == 0 || (AllLinks(lines, n - 1, upper) && LinkOf(lines[n - 1], upper).Some?)
  }

  lemma {:induction false} AllLinksEvery(lines: seq<string>, n: nat, upper: string -> string)
    requires n <= |lines|
    ensures AllLinks(lines, n, upper) <==> forall j :: 0 <= j < n ==> LinkOf(lines[j], upper).Some?
  {
    if n > 0 {
      AllLinksEvery(lines, n - 1, upper);
    }
  }

  /** The linking holds exactly the pairs of `pairs`, as (mention, KB id). */
  ghost predicate Represents(linking: Clustering, pairs: set<(string, string)>)
  {
    forall k, m :: (k in linking && m in linking[k]) <==> (m, k) in pairs
  }

  ghost predicate NonEmptyClusters(linking: Clustering)
  {
    forall k :: k in linking ==> linking[k] != {}
  }

  /** Adding a mention to the cluster of a KB id adds exactly that pair. */
  lemma AddLink(linking: Clustering, pairs: set<(string, string)>, mention: string, kbId: string)
    requires Represents(linking, pairs) && NonEmptyClusters(linking)
    ensures var added := linking[kbId := (if kbId in linking then linking[kbId] else {}) + {mention}];
      Represents(added, pairs + {(mention, kbId)}) && NonEmptyClusters(added)
  {
  }

  /** A mention is in the cluster of a KB id exactly when some line links the
      two (after upper-casing), and no cluster is empty. */
  lemma {:induction false} GroupRepresents(lines: seq<string>, n: nat, upper: string -> string)
    requires n <= |lines|
    ensures Represents(Group(lines, n, upper), PairsOf(lines, n, upper))
    ensures NonEmptyClusters(Group(lines, n, upper))
  {
    if n > 0 {
      GroupRepresents(lines, n - 1, upper);
      var link := LinkOf(lines[n - 1], upper);
      if link.Some? {
        AddLink(Group(lines, n - 1, upper), PairsOf(lines, n - 1, upper), link.value.0, link.value.1);
      }
    }
  }

  // ---------------------------------------------------------------------
  // Inverting linkings

  ghost function Mentions(linking: Clustering): set<string>
  {
    set k, m | k in linking && m in linking[k] :: m
  }

  /** `index` inverts `linking`: it has an entry for exactly the mentions of the
      linking, and maps each to a KB id whose cluster holds it. */
  ghost predicate IsIndexOf(index: Index, linking: Clustering)
  {
    index.Keys == Mentions(linking)
    && forall m :: m in index ==> index[m] in linking && m in linking[index[m]]
  }

  /** No mention is linked to two KB ids. */
  ghost predicate Disjoint(linking: Clustering)
  {
    forall k1, k2, m :: k1 in linking && k2 in linking && m in linking[k1] && m in linking[k2] ==> k1 == k2
  }

  /** getMap: inverts a linking. When a mention appears under several KB ids,
      the one visited last wins; the visiting order is unspecified. */
  method GetMap(linking: Clustering) returns (index: Index)
    ensures IsIndexOf(index, linking)
  {
    index := map[];
    var todo := linking.Keys;
    while todo != {}
      invariant todo <= linking.Keys
      invariant index.Keys == Mentions(linking - todo)
      invariant forall m :: m in index ==> index[m] in linking && m in linking[index[m]]
    {
      var kbId :| kbId in todo;
      var mentions := linking[kbId];
      var rest := mentions;
      while rest != {}
        invariant rest <= mentions
        invariant index.Keys == Mentions(linking - todo) + (mentions - rest)
        invariant forall m :: m in index ==> index[m] in linking && m in linking[index[m]]
      {
        var m :| m in rest;
        index := index[m := kbId];
        rest := rest - {m};
      }
      MentionsStep(linking, todo, kbId);
      todo := todo - {kbId};
    }
    assert linking - {} == linking;
  }

  lemma MentionsStep(linking: Clustering, todo: set<string>, kbId: string)
    requires todo <= linking.Keys && kbId in todo
    ensures Mentions(linking - (todo - {kbId})) == Mentions(linking - todo) + linking[kbId]
  {
    var after := linking - (todo - {kbId});
    var visited := linking - todo;
    forall m | m in Mentions(after) ensures m in Mentions(visited) + linking[kbId] {
      var k :| k in after && m in after[k];
      if k != kbId {
        assert k in visited && m in visited[k];
      }
    }
    forall m | m in Mentions(visited) + linking[kbId] ensures m in Mentions(after) {
      if m in linking[kbId] {
        assert kbId in after && m in after[kbId];
      } else {
        var k :| k in visited && m in visited[k];
        assert k in after && m in after[k];
      }
    }
  }

  /** On a linking where no mention has two KB ids, the inverse is exact. */
  lemma IndexExact(index: Index, linking: Clustering, k: string, m: string)
    requires IsIndexOf(index, linking) && Disjoint(linking)
    requires k in linking && m in linking[k]
    ensures m in index && index[m] == k
  {
    assert m in Mentions(linking);
  }

  // ---------------------------------------------------------------------
  // Correctness of a pair of mentions

  /** Every identifier beginning with "NIL" stands for "not in the KB". */
  function NormaliseNil(id: string): string
  {
    if StartsWith(id, "NIL") then "NIL" else id
  }

  /** Two identifiers agree after NIL normalisation exactly when both begin
      with "NIL", or neither does and they are equal. */
  lemma NilEquivalence(a: string, b: string)
    ensures NormaliseNil(a) == NormaliseNil(b) <==>
      (StartsWith(a, "NIL") && StartsWith(b, "NIL")) || (!StartsWith(a, "NIL") && !StartsWith(b, "NIL") && a == b)
  {
    if StartsWith(a, "NIL") && !StartsWith(b, "NIL") {
      assert b != "NIL";
    }
    if !StartsWith(a, "NIL") && StartsWith(b, "NIL") {
      assert a != "NIL";
    }
  }

  predicate InSameSet(a: string, b: string, index: Index)
    requires a in index && b in index
  {
    index[a] == index[b]
  }

  predicate SameLinking(a: string, b: string, sysIndex: Index, goldIndex: Index)
    requires a in sysIndex && b in sysIndex && a in goldIndex && b in goldIndex
  {
    var sysA := NormaliseNil(sysIndex[a]);
    var sysB := NormaliseNil(sysIndex[b]);
    var golA := NormaliseNil(goldIndex[a]);
    var golB := NormaliseNil(goldIndex[b]);
    sysA == sysB && sysB == golA && golA == golB
  }

  /** The original B-cubed metric (B2) or its entity-linking extension (B3). */
  datatype Metric = B2 | B3

  /** b2_correctness and b3_correctness. */
  predicate Correct(metric: Metric, a: string, b: string, sysIndex: Index, goldIndex: Index)
    requires a in sysIndex && b in sysIndex && a in goldIndex && b in goldIndex
  {
    InSameSet(a, b, sysIndex) && InSameSet(a, b, goldIndex)
    && (metric == B3 ==> SameLinking(a, b, sysIndex, goldIndex))
  }

  lemma InSameSetReflexiveSymmetric(a: string, b: string, index: Index)
    requires a in index && b in index
    ensures InSameSet(a, a, index)
    ensures InSameSet(a, b, index) == InSameSet(b, a, index)
  {
  }

  /** sameLinking is symmetric in the two mentions and in the two indexes, and
      holds of a mention with itself exactly when its normalised system and
      gold ids agree. */
  lemma SameLinkingSymmetric(a: string, b: string, sysIndex: Index, goldIndex: Index)
    requires a in sysIndex && b in sysIndex && a in goldIndex && b in goldIndex
    ensures SameLinking(a, b, sysIndex, goldIndex) == SameLinking(b, a, sysIndex, goldIndex)
    ensures SameLinking(a, b, sysIndex, goldIndex) == SameLinking(a, b, goldIndex, sysIndex)
    ensures SameLinking(a, a, sysIndex, goldIndex) <==> NormaliseNil(sysIndex[a]) == NormaliseNil(goldIndex[a])
  {
  }

  /** Two mentions whose system and gold ids all begin with "NIL" have the same
      linking, whatever the numbers after "NIL" are. */
  lemma NilMentionsSameLinking(a: string, b: string, sysIndex: Index, goldIndex: Index)
    requires a in sysIndex && b in sysIndex && a in goldIndex && b in goldIndex
    requires StartsWith(sysIndex[a], "NIL") && StartsWith(sysIndex[b], "NIL")
    requires StartsWith(goldIndex[a], "NIL") && StartsWith(goldIndex[b], "NIL")
    ensures SameLinking(a, b, sysIndex, goldIndex)
  {
  }

  lemma B3ImpliesB2(a: string, b: string, sysIndex: Index, goldIndex: Index)
    requires a in sysIndex && b in sysIndex && a in goldIndex && b in goldIndex
    ensures Correct(B3, a, b, sysIndex, goldIndex) ==> Correct(B2, a, b, sysIndex, goldIndex)
  {
  }

  /** Correctness does not depend on which index is the system's. */
  lemma CorrectIndexSwap(metric: Metric, a: string, b: string, sysIndex: Index, goldIndex: Index)
    requires a in sysIndex && b in sysIndex && a in goldIndex && b in goldIndex
    ensures Correct(metric, a, b, sysIndex, goldIndex) == Correct(metric, a, b, goldIndex, sysIndex)
  {
    SameLinkingSymmetric(a, b, sysIndex, goldIndex);
  }

  // ---------------------------------------------------------------------
  // Precision and recall

  /** Every mention of the linking has an entry in the index. */
  ghost predicate Covers(linking: Clustering, index: Index)
  {
    forall k, m :: k in linking && m in linking[k] ==> m in index
  }

  ghost predicate Defined(a: string, b: string, sysIndex: Index, goldIndex: Index)
  {
    a in sysIndex && b in sysIndex && a in goldIndex && b in goldIndex
  }

  /** The members of `cluster` that form a correct pair with `a`. */
  ghost function Partners(metric: Metric, a: string, cluster: set<string>, sysIndex: Index, goldIndex: Index): set<string>
  {
    set b | b in cluster && Defined(a, b, sysIndex, goldIndex) && Correct(metric, a, b, sysIndex, goldIndex)
  }

  /** The precision of one mention: the share of its cluster it is correct with. */
  ghost function ElementPrecision(metric: Metric, a: string, cluster: set<string>, sysIndex: Index, goldIndex: Index): real
  {
    if cluster == {} then 0.0
    else |Partners(metric, a, cluster, sysIndex, goldIndex)| as real / |cluster| as real
  }

  ghost function ElementTerm(metric: Metric, cluster: set<string>, sysIndex: Index, goldIndex: Index): string -> real
  {
    a => ElementPrecision(metric, a, cluster, sysIndex, goldIndex)
  }

  ghost function ClusterTerm(metric: Metric, linking: Clustering, sysIndex: Index, goldIndex: Index): string -> real
  {
    k => if k in linking then ClusterSum(metric, linking[k], sysIndex, goldIndex) else 0.0
  }

  /** The sum of the element precisions of one cluster. */
  ghost function ClusterSum(metric: Metric, cluster: set<string>, sysIndex: Index, goldIndex: Index): real
  {
    Sum(cluster, ElementTerm(metric, cluster, sysIndex, goldIndex))
  }

  ghost function SizeTerm(linking: Clustering): string -> real
  {
    k => if k in linking then |linking[k]| as real else 0.0
  }

  /** The number of (cluster, mention) entries of a linking. */
  ghost function ElementCount(linking: Clustering): real
  {
    Sum(linking.Keys, SizeTerm(linking))
  }

  /** B-cubed precision of `linking`: the mean element precision over all its
      entries. None when the linking is empty, where the scorer divides by
      zero. */
  ghost function PrecisionOf(metric: Metric, linking: Clustering, sysIndex: Index, goldIndex: Index): Option<real>
  {
    var n := ElementCount(linking);
    if n == 0.0 then None
    else Some(Sum(linking.Keys, ClusterTerm(metric, linking, sysIndex, goldIndex)) / n)
  }

  /** The number of members of `cluster` that form a correct pair with `a`. */
  method CountCorrect(metric: Metric, a: string, cluster: set<string>, sysIndex: Index, goldIndex: Index)
    returns (count: nat)
    requires a in sysIndex && a in goldIndex
    requires forall b :: b in cluster ==> b in sysIndex && b in goldIndex
    ensures count == |Partners(metric, a, cluster, sysIndex, goldIndex)|
  {
    count := 0;
    var rest := cluster;
    while rest != {}
      invariant rest <= cluster
      invariant count == |Partners(metric, a, cluster - rest, sysIndex, goldIndex)|
    {
      var b :| b in rest;
      ghost var before := Partners(metric, a, cluster - rest, sysIndex, goldIndex);
      assert b !in before;
      if Correct(metric, a, b, sysIndex, goldIndex) {
        count := count + 1;
        assert Partners(metric, a, cluster - (rest - {b}), sysIndex, goldIndex) == before + {b};
      } else {
        assert Partners(metric, a, cluster - (rest - {b}), sysIndex, goldIndex) == before;
      }
      rest := rest - {b};
    }
    assert cluster - {} == cluster;
  }

  /** The sum of the element precisions of one cluster. */
  method ClusterPrecisionSum(metric: Metric, cluster: set<string>, sysIndex: Index, goldIndex: Index)
    returns (sum: real)
    requires forall b :: b in cluster ==> b in sysIndex && b in goldIndex
    ensures sum == ClusterSum(metric, cluster, sysIndex, goldIndex)
  {
    sum := 0.0;
    var rest := cluster;
    while rest != {}
      invariant rest <= cluster
      invariant sum == Sum(cluster - rest, ElementTerm(metric, cluster, sysIndex, goldIndex))
    {
      var a :| a in rest;
      var correct := CountCorrect(metric, a, cluster, sysIndex, goldIndex);
      sum := sum + correct as real / |cluster| as real;
      SumStep(cluster, rest, ElementTerm(metric, cluster, sysIndex, goldIndex), a);
      rest := rest - {a};
    }
    assert cluster - {} == cluster;
  }

  /** b2_precision and b3_precision: the mean element precision over the
      linking's entries, visiting its clusters in an unspecified order; None
      where the scorer divides by zero on an empty linking. */
  method Precision(metric: Metric, linking: Clustering, sysIndex: Index, goldIndex: Index)
    returns (p: Option<real>)
    requires Covers(linking, sysIndex) && Covers(linking, goldIndex)
    ensures p == PrecisionOf(metric, linking, sysIndex, goldIndex)
  {
    var sums := 0.0;
    var count: nat := 0;
    var todo := linking.Keys;
    while todo != {}
      invariant todo <= linking.Keys
      invariant count as real == Sum(linking.Keys - todo, SizeTerm(linking))
      invariant sums == Sum(linking.Keys - todo, ClusterTerm(metric, linking, sysIndex, goldIndex))
    {
      var kbId :| kbId in todo;
      var mentions := linking[kbId];
      count := count + |mentions|;
      var s := ClusterPrecisionSum(metric, mentions, sysIndex, goldIndex);
      sums := sums + s;
      PrecisionStep(metric, linking, sysIndex, goldIndex, todo, kbId);
      todo := todo - {kbId};
    }
    PrecisionFromTotals(metric, linking, sysIndex, goldIndex, todo, count, sums);
    if count == 0 {
      p := None;
    } else {
      p := Some(sums / count as real);
    }
  }

  /** Visiting one more cluster adds its size and its precision sum. */
  lemma PrecisionStep(metric: Metric, linking: Clustering, sysIndex: Index, goldIndex: Index,
                      todo: set<string>, kbId: string)
    requires todo <= linking.Keys && kbId in todo
    ensures Sum(linking.Keys - (todo - {kbId}), SizeTerm(linking))
      == Sum(linking.Keys - todo, SizeTerm(linking)) + |linking[kbId]| as real
    ensures Sum(linking.Keys - (todo - {kbId}), ClusterTerm(metric, linking, sysIndex, goldIndex))
      == Sum(linking.Keys - todo, ClusterTerm(metric, linking, sysIndex, goldIndex)) + ClusterSum(metric, linking[kbId], sysIndex, goldIndex)
  {
    SumStep(linking.Keys, todo, SizeTerm(linking), kbId);
    SumStep(linking.Keys, todo, ClusterTerm(metric, linking, sysIndex, goldIndex), kbId);
  }

  lemma PrecisionFromTotals(metric: Metric, linking: Clustering, sysIndex: Index, goldIndex: Index,
                            todo: set<string>, count: nat, sums: real)
    requires todo == {}
    requires count as real == Sum(linking.Keys - todo, SizeTerm(linking))
    requires sums == Sum(linking.Keys - todo, ClusterTerm(metric, linking, sysIndex, goldIndex))
    ensures PrecisionOf(metric, linking, sysIndex, goldIndex) == if count == 0 then None else Some(sums / count as real)
  {
    assert linking.Keys - todo == linking.Keys;
  }

  /** b3_recall (and the intended b2_recall): the precision of the gold linking,
      called with the indexes in the same positions as for precision. */
  method Recall(metric: Metric, system: Clustering, gold: Clustering, sysIndex: Index, goldIndex: Index)
    returns (r: Option<real>)
    requires Covers(gold, sysIndex) && Covers(gold, goldIndex)
    ensures r == PrecisionOf(metric, gold, goldIndex, sysIndex)
  {
    r := Precision(metric, gold, sysIndex, goldIndex);
    PrecisionIndexSwap(metric, gold, sysIndex, goldIndex);
  }

  /** b2_recall as written: it calls b3_precision, so it yields the B3 recall. */
  method B2RecallAsWritten(system: Clustering, gold: Clustering, sysIndex: Index, goldIndex: Index)
    returns (r: Option<real>)
    requires Covers(gold, sysIndex) && Covers(gold, goldIndex)
    ensures r == PrecisionOf(B3, gold, goldIndex, sysIndex)
  {
    r := Recall(B3, system, gold, sysIndex, goldIndex);
  }

  lemma SingletonCount(k: string, a: string)
    ensures ElementCount(map[k := {a}]) == 1.0
  {
    var linking := map[k := {a}];
    assert linking.Keys == {k};
    SumSingleton(k, SizeTerm(linking));
  }

  lemma SingletonTotal(metric: Metric, k: string, a: string, sysIndex: Index, goldIndex: Index)
    ensures Sum(map[k := {a}].Keys, ClusterTerm(metric, map[k := {a}], sysIndex, goldIndex))
      == ElementPrecision(metric, a, {a}, sysIndex, goldIndex)
  {
    var linking := map[k := {a}];
    assert linking.Keys == {k};
    SumSingleton(k, ClusterTerm(metric, linking, sysIndex, goldIndex));
    SumSingleton(a, ElementTerm(metric, {a}, sysIndex, goldIndex));
  }

  /** The precision of a linking with one cluster of one mention is that
      mention's precision. */
  lemma SingletonPrecision(metric: Metric, k: string, a: string, sysIndex: Index, goldIndex: Index)
    ensures PrecisionOf(metric, map[k := {a}], sysIndex, goldIndex) == Some(ElementPrecision(metric, a, {a}, sysIndex, goldIndex))
  {
    SingletonCount(k, a);
    SingletonTotal(metric, k, a, sysIndex, goldIndex);
    RatioByOne(ElementPrecision(metric, a, {a}, sysIndex, goldIndex));
  }

  lemma RatioByOne(t: real)
    ensures t / 1.0 == t
  {
  }

  /** With the system id "E1" and the gold id "E2", mention "A" is correct
      with itself under B2 but not under B3. */
  lemma DifferingIdsPartners()
    ensures Partners(B3, "A", {"A"}, map["A" := "E2"], map["A" := "E1"]) == {}
    ensures Partners(B2, "A", {"A"}, map["A" := "E2"], map["A" := "E1"]) == {"A"}
  {
    assert !StartsWith("E1", "NIL") && !StartsWith("E2", "NIL");
  }

  lemma DifferingIdsPrecision()
    ensures ElementPrecision(B3, "A", {"A"}, map["A" := "E2"], map["A" := "E1"]) == 0.0
    ensures ElementPrecision(B2, "A", {"A"}, map["A" := "E2"], map["A" := "E1"]) == 1.0
  {
    DifferingIdsPartners();
    assert |{"A"}| == 1;
  }

  /** A one-mention linking whose system id differs from its gold id: the B2
      recall is 1, while the value b2_recall computes, the B3 recall, is 0. */
  lemma B2RecallAsWrittenDiffers()
    ensures PrecisionOf(B3, map["E2" := {"A"}], map["A" := "E2"], map["A" := "E1"]) == Some(0.0)
    ensures PrecisionOf(B2, map["E2" := {"A"}], map["A" := "E2"], map["A" := "E1"]) == Some(1.0)
  {
    DifferingIdsPrecision();
    SingletonPrecision(B3, "E2", "A", map["A" := "E2"], map["A" := "E1"]);
    SingletonPrecision(B2, "E2", "A", map["A" := "E2"], map["A" := "E1"]);
  }

  // ---------------------------------------------------------------------
  // Properties of precision

  lemma PartnersIndexSwap(metric: Metric, a: string, cluster: set<string>, sysIndex: Index, goldIndex: Index)
    ensures Partners(metric, a, cluster, sysIndex, goldIndex) == Partners(metric, a, cluster, goldIndex, sysIndex)
  {
    forall b | b in cluster && Defined(a, b, sysIndex, goldIndex) {
      CorrectIndexSwap(metric, a, b, sysIndex, goldIndex);
    }
  }

  /** Swapping the two indexes leaves precision unchanged: recall, which the
      scorer computes without swapping them, is the precision of the gold
      linking against the system. */
  lemma PrecisionIndexSwap(metric: Metric, linking: Clustering, sysIndex: Index, goldIndex: Index)
    ensures PrecisionOf(metric, linking, sysIndex, goldIndex) == PrecisionOf(metric, linking, goldIndex, sysIndex)
  {
    forall k | k in linking.Keys
      ensures ClusterTerm(metric, linking, sysIndex, goldIndex)(k) == ClusterTerm(metric, linking, goldIndex, sysIndex)(k)
    {
      forall a | a in linking[k]
        ensures ElementTerm(metric, linking[k], sysIndex, goldIndex)(a) == ElementTerm(metric, linking[k], goldIndex, sysIndex)(a)
      {
        PartnersIndexSwap(metric, a, linking[k], sysIndex, goldIndex);
      }
      SumCongruent(linking[k], ElementTerm(metric, linking[k], sysIndex, goldIndex), ElementTerm(metric, linking[k], goldIndex, sysIndex));
    }
    SumCongruent(linking.Keys, ClusterTerm(metric, linking, sysIndex, goldIndex), ClusterTerm(metric, linking, goldIndex, sysIndex));
  }

  lemma ElementPrecisionBounds(metric: Metric, a: string, cluster: set<string>, sysIndex: Index, goldIndex: Index)
    ensures 0.0 <= ElementPrecision(metric, a, cluster, sysIndex, goldIndex) <= 1.0
    ensures metric == B2 && a in cluster && Defined(a, a, sysIndex, goldIndex) ==>
      ElementPrecision(metric, a, cluster, sysIndex, goldIndex) > 0.0
  {
    var ps := Partners(metric, a, cluster, sysIndex, goldIndex);
    SubsetCard(ps, cluster);
    if metric == B2 && a in cluster && Defined(a, a, sysIndex, goldIndex) {
      assert a in ps;
    }
    if cluster != {} {
      RatioBounds(|ps| as real, |cluster| as real);
    }
  }

  lemma SubsetCard<T>(a: set<T>, b: set<T>)
    requires a <= b
    ensures |a| <= |b|
  {
    assert b == a + (b - a);
  }

  /** Each cluster's term lies between 0 and the cluster's size (and is
      positive for B2 on a non-empty, covered cluster). */
  lemma ClusterTermBounds(metric: Metric, linking: Clustering, sysIndex: Index, goldIndex: Index, k: string)
    requires k in linking
    ensures 0.0 <= ClusterTerm(metric, linking, sysIndex, goldIndex)(k) <= SizeTerm(linking)(k)
    ensures metric == B2 && linking[k] != {} && Covers(linking, sysIndex) && Covers(linking, goldIndex) ==>
      ClusterTerm(metric, linking, sysIndex, goldIndex)(k) > 0.0
  {
    var cluster := linking[k];
    var f := ElementTerm(metric, cluster, sysIndex, goldIndex);
    forall a | a in cluster ensures 0.0 <= f(a) <= 1.0 {
      ElementPrecisionBounds(metric, a, cluster, sysIndex, goldIndex);
    }
    SumNonNegative(cluster, f);
    SumAtMostCount(cluster, f);
    if metric == B2 && cluster != {} && Covers(linking, sysIndex) && Covers(linking, goldIndex) {
      forall a | a in cluster ensures f(a) > 0.0 {
        ElementPrecisionBounds(metric, a, cluster, sysIndex, goldIndex);
      }
      SumPositive(cluster, f);
    }
  }

  lemma ElementCountNonNegative(linking: Clustering)
    ensures ElementCount(linking) >= 0.0
  {
    SumNonNegative(linking.Keys, SizeTerm(linking));
  }

  /** A non-empty cluster makes the entry count positive. */
  lemma ElementCountPositive(linking: Clustering, k: string)
    requires k in linking && linking[k] != {}
    ensures ElementCount(linking) > 0.0
  {
    var g := SizeTerm(linking);
    SumRemove(linking.Keys, g, k);
    SumNonNegative(linking.Keys - {k}, g);
  }

  /** Without a non-empty cluster the entry count is zero. */
  lemma ElementCountZero(linking: Clustering)
    requires forall k :: k in linking ==> linking[k] == {}
    ensures ElementCount(linking) == 0.0
  {
    SumZero(linking.Keys, SizeTerm(linking));
  }

  /** The total of the cluster terms lies between 0 and the entry count. */
  lemma TotalBounds(metric: Metric, linking: Clustering, sysIndex: Index, goldIndex: Index)
    ensures 0.0 <= Sum(linking.Keys, ClusterTerm(metric, linking, sysIndex, goldIndex)) <= ElementCount(linking)
  {
    var f := ClusterTerm(metric, linking, sysIndex, goldIndex);
    forall k | k in linking.Keys ensures 0.0 <= f(k) <= SizeTerm(linking)(k) {
      ClusterTermBounds(metric, linking, sysIndex, goldIndex, k);
    }
    SumNonNegative(linking.Keys, f);
    SumMonotone(linking.Keys, f, SizeTerm(linking));
  }

  /** Under B2 every mention is correct with itself, so a covered linking with
      a non-empty cluster has a positive total. */
  lemma TotalPositive(linking: Clustering, sysIndex: Index, goldIndex: Index, k: string)
    requires Covers(linking, sysIndex) && Covers(linking, goldIndex)
    requires k in linking && linking[k] != {}
    ensures Sum(linking.Keys, ClusterTerm(B2, linking, sysIndex, goldIndex)) > 0.0
  {
    var f := ClusterTerm(B2, linking, sysIndex, goldIndex);
    forall j | j in linking.Keys ensures 0.0 <= f(j) {
      ClusterTermBounds(B2, linking, sysIndex, goldIndex, j);
    }
    ClusterTermBounds(B2, linking, sysIndex, goldIndex, k);
    SumRemove(linking.Keys, f, k);
    SumNonNegative(linking.Keys - {k}, f);
  }

  lemma RatioBounds(t: real, n: real)
    requires 0.0 <= t <= n && n > 0.0
    ensures 0.0 <= t / n <= 1.0
    ensures t > 0.0 ==> t / n > 0.0
  {
    assert t / n * n == t;
  }

  /** B2 and B3 precision are defined exactly when some cluster is non-empty,
      and then lie in [0, 1]; B2 precision of a covered linking is then
      strictly positive. */
  lemma PrecisionBounds(metric: Metric, linking: Clustering, sysIndex: Index, goldIndex: Index)
    requires Covers(linking, sysIndex) && Covers(linking, goldIndex)
    ensures PrecisionOf(metric, linking, sysIndex, goldIndex).Some? <==> exists k :: k in linking && linking[k] != {}
    ensures PrecisionOf(metric, linking, sysIndex, goldIndex).Some? ==>
      0.0 <= PrecisionOf(metric, linking, sysIndex, goldIndex).value <= 1.0
    ensures metric == B2 && PrecisionOf(metric, linking, sysIndex, goldIndex).Some? ==>
      PrecisionOf(metric, linking, sysIndex, goldIndex).value > 0.0
  {
    TotalBounds(metric, linking, sysIndex, goldIndex);
    var t := Sum(linking.Keys, ClusterTerm(metric, linking, sysIndex, goldIndex));
    var n := ElementCount(linking);
    if exists k :: k in linking && linking[k] != {} {
      var k :| k in linking && linking[k] != {};
      ElementCountPositive(linking, k);
      if metric == B2 {
        TotalPositive(linking, sysIndex, goldIndex, k);
      }
      RatioBounds(t, n);
    } else {
      ElementCountZero(linking);
    }
  }

  /** In a linking scored against itself with an exact inverse, every mention
      is correct with every member of its cluster. */
  lemma ElementPerfect(metric: Metric, linking: Clustering, index: Index, k: string, a: string)
    requires IsIndexOf(index, linking) && Disjoint(linking)
    requires k in linking && a in linking[k]
    ensures ElementPrecision(metric, a, linking[k], index, index) == 1.0
  {
    var cluster := linking[k];
    AllPartners(metric, linking, index, k, a);
    RatioOne(|cluster| as real, |cluster| as real);
  }

  /** With an exact inverse, every member of its cluster is a partner of `a`. */
  lemma AllPartners(metric: Metric, linking: Clustering, index: Index, k: string, a: string)
    requires IsIndexOf(index, linking) && Disjoint(linking)
    requires k in linking && a in linking[k]
    ensures Partners(metric, a, linking[k], index, index) == linking[k]
  {
    var cluster := linking[k];
    IndexExact(index, linking, k, a);
    forall b | b in cluster ensures b in Partners(metric, a, cluster, index, index) {
      IndexExact(index, linking, k, b);
      assert Defined(a, b, index, index) && InSameSet(a, b, index);
    }
  }

  /** A cluster whose every mention has precision 1 contributes its size. */
  lemma ClusterTermPerfect(metric: Metric, linking: Clustering, sysIndex: Index, goldIndex: Index, k: string)
    requires k in linking
    requires forall a :: a in linking[k] ==> ElementPrecision(metric, a, linking[k], sysIndex, goldIndex) == 1.0
    ensures ClusterTerm(metric, linking, sysIndex, goldIndex)(k) == SizeTerm(linking)(k)
  {
    SumCount(linking[k], ElementTerm(metric, linking[k], sysIndex, goldIndex));
  }

  lemma ClusterTermSelf(metric: Metric, linking: Clustering, index: Index, k: string)
    requires IsIndexOf(index, linking) && Disjoint(linking)
    requires k in linking
    ensures ClusterTerm(metric, linking, index, index)(k) == SizeTerm(linking)(k)
  {
    forall a | a in linking[k] ensures ElementPrecision(metric, a, linking[k], index, index) == 1.0 {
      ElementPerfect(metric, linking, index, k, a);
    }
    ClusterTermPerfect(metric, linking, index, index, k);
  }

  /** A linking scored against itself, with an exact inverse as both indexes,
      has precision 1. */
  lemma PerfectPrecision(metric: Metric, linking: Clustering, index: Index)
    requires IsIndexOf(index, linking) && Disjoint(linking)
    requires exists k :: k in linking && linking[k] != {}
    ensures PrecisionOf(metric, linking, index, index) == Some(1.0)
  {
    var f := ClusterTerm(metric, linking, index, index);
    forall k | k in linking.Keys ensures f(k) == SizeTerm(linking)(k) {
      ClusterTermSelf(metric, linking, index, k);
    }
    SumCongruent(linking.Keys, f, SizeTerm(linking));
    var k :| k in linking && linking[k] != {};
    ElementCountPositive(linking, k);
    RatioOne(Sum(linking.Keys, f), ElementCount(linking));
  }

  lemma RatioOne(t: real, n: real)
    requires t == n && n != 0.0
    ensures t / n == 1.0
  {
  }

  // ---------------------------------------------------------------------
  // Scoring one system output

  /** An index of a linking covers it, and so does any index with the same
      mentions. */
  lemma IndexCovers(index: Index, linking: Clustering, other: Index)
    requires IsIndexOf(index, linking) && other.Keys == index.Keys
    ensures Covers(linking, index) && Covers(linking, other)
  {
    forall k, m | k in linking && m in linking[k] ensures m in index {
      assert m in Mentions(linking);
    }
  }

  /** One line of the ranking: either the system is skipped for covering a
      different set of mentions than the gold standard, or it is scored. */
  datatype Row =
    | MissingMentions(missing: set<string>)
    | ExtraMentions(extra: set<string>)
    | Scored(precision: Option<real>, recall: Option<real>)

  /** systemsRankingScript's body for one system: the system is skipped when it
      lacks a gold mention, or else when it has a mention the gold standard
      lacks; otherwise it is scored by B3 precision and recall. */
  method ScoreSystem(gold: Clustering, goldIndex: Index, system: Clustering)
    returns (row: Row, sysIndex: Index)
    requires IsIndexOf(goldIndex, gold)
    ensures IsIndexOf(sysIndex, system)
    ensures row.MissingMentions? <==> Mentions(gold) - Mentions(system) != {}
    ensures row.MissingMentions? ==> row.missing == Mentions(gold) - Mentions(system)
    ensures row.ExtraMentions? <==> Mentions(gold) <= Mentions(system) && Mentions(system) - Mentions(gold) != {}
    ensures row.ExtraMentions? ==> row.extra == Mentions(system) - Mentions(gold)
    ensures row.Scored? ==>
      && Mentions(system) == Mentions(gold)
      && row.precision == PrecisionOf(B3, system, sysIndex, goldIndex)
      && row.recall == PrecisionOf(B3, gold, goldIndex, sysIndex)
  {
    sysIndex := GetMap(system);
    var goldEls := goldIndex.Keys;
    var sysEls := sysIndex.Keys;
    var missing := goldEls - sysEls;
    if |missing| > 0 {
      return MissingMentions(missing), sysIndex;
    }
    assert Mentions(gold) <= Mentions(system) by {
      assert missing == {};
      forall m | m in goldEls ensures m in sysEls {
        assert m !in missing;
      }
    }
    var extra := sysEls - goldEls;
    if |extra| > 0 {
      return ExtraMentions(extra), sysIndex;
    }
    assert Mentions(system) == Mentions(gold) by {
      assert extra == {};
      forall m | m in sysEls ensures m in goldEls {
        assert m !in extra;
      }
    }
    IndexCovers(sysIndex, system, goldIndex);
    IndexCovers(goldIndex, gold, sysIndex);
    var p := Precision(B3, system, sysIndex, goldIndex);
    var r := Recall(B3, system, gold, sysIndex, goldIndex);
    return Scored(p, r), sysIndex;
  }
}
