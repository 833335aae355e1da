// The Java port of the entity-linking scorer: accuracy with NIL normalisation
// (SimpleClusterEvaluation), per-mention B-cubed precision and recall maps,
// their averages over a focus set of mentions, and F1 scores
// (BCubedEvaluation, and BCubedPlusEvaluation with the extended correctness).
module ClusterEval {
  import opened Wrappers
  import opened Text
  import opened Sums
  import opened TacOutput
  import opened ElScorer

  /** An evaluation of a system output against gold outputs, averaged over the
      mentions of `focus`. The metric B2 is `BCubedEvaluation`, whose
      correctness asks only for co-clustering; B3 is `BCubedPlusEvaluation`,
      which also asks for the same NIL-normalised link. */
  datatype Evaluation = Evaluation(metric: Metric, sys: OutputSet, gold: OutputSet, focus: OutputSet)

  /** The KB id of each mention, as `getMentionIndex().get(m).getKbId()` reads it. */
  function KbIndex(os: OutputSet): Index
  {
    map m | m in os.index :: os.index[m].kbId
  }

  // ---------------------------------------------------------------------
  // SimpleClusterEvaluation

  /** The mentions of `ms` whose gold and system ids agree after NIL
      normalisation. */
  ghost function TrueAmong(sys: OutputSet, gold: OutputSet, ms: set<string>): set<string>
  {
    set m | m in ms && m in gold.index && m in sys.index
      && NormaliseNil(gold.index[m].kbId) == NormaliseNil(sys.index[m].kbId)
  }

  /** `getTrueCount`: the number of gold mentions the system links correctly.
      The system must know every gold mention. */
  method TrueCount(e: Evaluation) returns (count: nat)
    requires e.gold.index.Keys <= e.sys.index.Keys
    ensures count == |TrueAmong(e.sys, e.gold, e.gold.index.Keys)|
  {
    count := 0;
    var todo := e.gold.index.Keys;
    while todo != {}
      invariant todo <= e.gold.index.Keys
      invariant count == |TrueAmong(e.sys, e.gold, e.gold.index.Keys - todo)|
    {
      var el :| el in todo;
      ghost var before := TrueAmong(e.sys, e.gold, e.gold.index.Keys - todo);
      var goldKbId := e.gold.index[el].kbId;
      if StartsWith(goldKbId, "NIL") {
        goldKbId := "NIL";
      }
      var sysKbId := e.sys.index[el].kbId;
      if StartsWith(sysKbId, "NIL") {
        sysKbId := "NIL";
      }
      assert el !in before;
      if goldKbId == sysKbId {
        count := count + 1;
        assert TrueAmong(e.sys, e.gold, e.gold.index.Keys - (todo - {el})) == before + {el};
      } else {
        assert TrueAmong(e.sys, e.gold, e.gold.index.Keys - (todo - {el})) == before;
      }
      todo := todo - {el};
    }
    assert e.gold.index.Keys - {} == e.gold.index.Keys;
  }

  /** The share of gold mentions linked correctly; None where the source
      divides zero by zero on an empty gold set. */
  ghost function AccuracyOf(sys: OutputSet, gold: OutputSet): Option<real>
  {
    if |gold.index| == 0 then None
    else Some(|TrueAmong(sys, gold, gold.index.Keys)| as real / |gold.index| as real)
  }

  /** `accuracy`. */
  method Accuracy(e: Evaluation) returns (a: Option<real>)
    requires e.gold.index.Keys <= e.sys.index.Keys
    ensures a == AccuracyOf(e.sys, e.gold)
  {
    var t := TrueCount(e);
    var n := MentionCount(e.gold);
    if n == 0 {
      a := None;
    } else {
      a := Some(t as real / n as real);
    }
  }

  /** A gold mention counts as correct exactly when both ids begin with "NIL",
      or neither does and they are equal. */
  lemma TrueMention(sys: OutputSet, gold: OutputSet, m: string)
    requires m in gold.index && m in sys.index
    ensures m in TrueAmong(sys, gold, gold.index.Keys) <==>
      var g, s := gold.index[m].kbId, sys.index[m].kbId;
      (StartsWith(g, "NIL") && StartsWith(s, "NIL")) || (!StartsWith(g, "NIL") && !StartsWith(s, "NIL") && g == s)
  {
    NilEquivalence(gold.index[m].kbId, sys.index[m].kbId);
  }

  /** Accuracy is defined exactly for a non-empty gold set and lies in [0, 1]. */
  lemma AccuracyBounds(sys: OutputSet, gold: OutputSet)
    ensures AccuracyOf(sys, gold).Some? <==> |gold.index| > 0
    ensures AccuracyOf(sys, gold).Some? ==> 0.0 <= AccuracyOf(sys, gold).value <= 1.0
  {
    var t := TrueAmong(sys, gold, gold.index.Keys);
    SubsetCard(t, gold.index.Keys);
    if |gold.index| > 0 {
      RatioBounds(|t| as real, |gold.index| as real);
    }
  }

  /** An output scored against itself has accuracy 1. */
  lemma AccuracyPerfect(os: OutputSet)
    requires |os.index| > 0
    ensures AccuracyOf(os, os) == Some(1.0)
  {
    assert TrueAmong(os, os, os.index.Keys) == os.index.Keys;
    RatioOne(|os.index| as real, |os.index| as real);
  }

  // ---------------------------------------------------------------------
  // BCubedEvaluation and BCubedPlusEvaluation: per-mention maps

  /** The outputs of `cluster` that form a correct pair with `a`. */
  ghost function OutputPartners(metric: Metric, a: Output, cluster: set<Output>, sysIndex: Index, goldIndex: Index): set<Output>
  {
    set b | b in cluster && Defined(a.mentionId, b.mentionId, sysIndex, goldIndex)
      && Correct(metric, a.mentionId, b.mentionId, sysIndex, goldIndex)
  }

  /** The precision of one output: the share of its cluster it is correct with. */
  ghost function OutputPrecision(metric: Metric, a: Output, cluster: set<Output>, sysIndex: Index, goldIndex: Index): real
  {
    if cluster == {} then 0.0
    else |OutputPartners(metric, a, cluster, sysIndex, goldIndex)| as real / |cluster| as real
  }

  /** The map `precision(sys, gold)` builds: each mention of `sys` to its
      precision within its own cluster. `recall()` is this map with the roles
      of the two output sets exchanged. */
  ghost function PrecisionMapOf(metric: Metric, sys: OutputSet, gold: OutputSet): map<string, real>
  {
    map m | m in sys.index ::
      var o := sys.index[m];
      if o.kbId in sys.clusters then OutputPrecision(metric, o, sys.clusters[o.kbId], KbIndex(sys), KbIndex(gold)) else 0.0
  }

  /** The number of members of `cluster` that form a correct pair with `a`. */
  method CountCorrectOutputs(metric: Metric, a: Output, cluster: set<Output>, sysIndex: Index, goldIndex: Index)
    returns (count: nat)
    requires a.mentionId in sysIndex && a.mentionId in goldIndex
    requires forall b :: b in cluster ==> b.mentionId in sysIndex && b.mentionId in goldIndex
    ensures count == |OutputPartners(metric, a, cluster, sysIndex, goldIndex)|
  {
    count := 0;
    var rest := cluster;
    while rest != {}
      invariant rest <= cluster
      invariant count == |OutputPartners(metric, a, cluster - rest, sysIndex, goldIndex)|
    {
      var b :| b in rest;
      ghost var before := OutputPartners(metric, a, cluster - rest, sysIndex, goldIndex);
      assert b !in before;
      if Correct(metric, a.mentionId, b.mentionId, sysIndex, goldIndex) {
        count := count + 1;
        assert OutputPartners(metric, a, cluster - (rest - {b}), sysIndex, goldIndex) == before + {b};
      } else {
        assert OutputPartners(metric, a, cluster - (rest - {b}), sysIndex, goldIndex) == before;
      }
      rest := rest - {b};
    }
    assert cluster - {} == cluster;
  }

  ghost function MentionIdsOf(outputs: set<Output>): set<string>
  {
    set o | o in outputs :: o.mentionId
  }

  /** `out` extends `pre` with the precisions of the members `done` of
      `cluster`. */
  ghost predicate ExtendsWith(metric: Metric, cluster: set<Output>, sysIndex: Index, goldIndex: Index,
                              pre: map<string, real>, out: map<string, real>, done: set<Output>)
  {
    && out.Keys == pre.Keys + MentionIdsOf(done)
    && (forall m :: m in pre ==> out[m] == pre[m])
    && forall b :: b in done ==> out[b.mentionId] == OutputPrecision(metric, b, cluster, sysIndex, goldIndex)
  }

  lemma ExtendsWithStep(metric: Metric, cluster: set<Output>, sysIndex: Index, goldIndex: Index,
                        pre: map<string, real>, out: map<string, real>, done: set<Output>, a: Output)
    requires ExtendsWith(metric, cluster, sysIndex, goldIndex, pre, out, done)
    requires a !in done && a.mentionId !in pre
    requires forall b :: b in done ==> b.mentionId != a.mentionId
    ensures ExtendsWith(metric, cluster, sysIndex, goldIndex, pre,
                        out[a.mentionId := OutputPrecision(metric, a, cluster, sysIndex, goldIndex)], done + {a})
  {
    assert MentionIdsOf(done + {a}) == MentionIdsOf(done) + {a.mentionId};
  }

  /** The inner loops of `precision`: puts the precision of every member of
      one cluster into the map being built. No key is put twice, since the
      cluster's mention ids are new and distinct. */
  method PutClusterPrecisions(metric: Metric, cluster: set<Output>, sysIndex: Index, goldIndex: Index,
                              pre: map<string, real>)
    returns (out: map<string, real>)
    requires forall b :: b in cluster ==> b.mentionId in sysIndex && b.mentionId in goldIndex
    requires forall b :: b in cluster ==> b.mentionId !in pre
    requires forall b, c :: b in cluster && c in cluster && b.mentionId == c.mentionId ==> b == c
    ensures ExtendsWith(metric, cluster, sysIndex, goldIndex, pre, out, cluster)
  {
    out := pre;
    var rest := cluster;
    assert cluster - rest == {};
    while rest != {}
      invariant rest <= cluster
      invariant ExtendsWith(metric, cluster, sysIndex, goldIndex, pre, out, cluster - rest)
    {
      var a :| a in rest;
      var correct := CountCorrectOutputs(metric, a, cluster, sysIndex, goldIndex);
      ExtendsWithStep(metric, cluster, sysIndex, goldIndex, pre, out, cluster - rest, a);
      out := out[a.mentionId := correct as real / |cluster| as real];
      assert cluster - (rest - {a}) == (cluster - rest) + {a};
      rest := rest - {a};
    }
    assert cluster - {} == cluster;
  }

  /** The mention ids of the clusters keyed by `keys`. */
  ghost function ClusterMentions(clusters: map<string, set<Output>>, keys: set<string>): set<string>
  {
    set k, o | k in keys && k in clusters && o in clusters[k] :: o.mentionId
  }

  lemma ClusterMentionsStep(clusters: map<string, set<Output>>, keys: set<string>, k: string)
    requires k in clusters
    ensures ClusterMentions(clusters, keys + {k}) == ClusterMentions(clusters, keys) + MentionIdsOf(clusters[k])
  {
  }

  /** The members of a cluster of a built set are known to both indexes
      (gold knowing every system mention), they carry distinct mention ids,
      and none of those ids occurs in another cluster. */
  lemma ClusterFacts(sys: OutputSet, gold: OutputSet, visited: set<string>, kbId: string)
    requires Clustered(sys, gold)
    requires kbId in sys.clusters && kbId !in visited
    ensures forall b :: b in sys.clusters[kbId] ==> b.mentionId in KbIndex(sys) && b.mentionId in KbIndex(gold)
    ensures forall b :: b in sys.clusters[kbId] ==> b.mentionId !in ClusterMentions(sys.clusters, visited)
    ensures forall b, c :: b in sys.clusters[kbId] && c in sys.clusters[kbId] && b.mentionId == c.mentionId ==> b == c
  {
    forall b, k, o | b in sys.clusters[kbId] && k in visited && k in sys.clusters && o in sys.clusters[k]
      ensures o.mentionId != b.mentionId
    {
      assert o.kbId != b.kbId;
      assert sys.index[o.mentionId] == o && sys.index[b.mentionId] == b;
    }
  }

  /** Every cluster member of `sys` is indexed under its mention id, sits in
      the cluster of its own KB id, and is known to `gold`. */
  ghost predicate Clustered(sys: OutputSet, gold: OutputSet)
  {
    && sys.index.Keys <= gold.index.Keys
    && forall k, b :: k in sys.clusters && b in sys.clusters[k] ==>
         b.mentionId in sys.index && sys.index[b.mentionId] == b && b.kbId == k
  }

  lemma BuiltIsClustered(sys: OutputSet, gold: OutputSet)
    requires Built(sys) && sys.index.Keys <= gold.index.Keys
    ensures Clustered(sys, gold)
  {
    BuiltStructure(sys);
  }

  /** Every mention of a built set is a member of the cluster of its KB id,
      and the clusters hold no other mentions. */
  lemma IndexInClusters(sys: OutputSet)
    requires Built(sys)
    ensures forall m :: m in sys.index ==>
      sys.index[m].kbId in sys.clusters && sys.index[m] in sys.clusters[sys.index[m].kbId] && sys.index[m].mentionId == m
    ensures ClusterMentions(sys.clusters, sys.clusters.Keys) == sys.index.Keys
  {
    BuiltStructure(sys);
  }

  /** `pre` holds exactly the precisions of the members of the clusters keyed
      by `visited`. */
  ghost predicate HoldsPrecisions(metric: Metric, sys: OutputSet, gold: OutputSet, pre: map<string, real>, visited: set<string>)
  {
    && pre.Keys == ClusterMentions(sys.clusters, visited)
    && forall k, o :: k in visited && k in sys.clusters && o in sys.clusters[k] ==>
        o.mentionId in pre && pre[o.mentionId] == OutputPrecision(metric, o, sys.clusters[k], KbIndex(sys), KbIndex(gold))
  }

  /** Putting the precisions of one more cluster extends the visited clusters. */
  lemma HoldsPrecisionsStep(metric: Metric, sys: OutputSet, gold: OutputSet,
                            pre: map<string, real>, out: map<string, real>, visited: set<string>, kbId: string)
    requires kbId in sys.clusters && kbId !in visited
    requires HoldsPrecisions(metric, sys, gold, pre, visited)
    requires ExtendsWith(metric, sys.clusters[kbId], KbIndex(sys), KbIndex(gold), pre, out, sys.clusters[kbId])
    ensures HoldsPrecisions(metric, sys, gold, out, visited + {kbId})
  {
    ClusterMentionsStep(sys.clusters, visited, kbId);
  }

  /** A map holding the precision of every member of every cluster is the
      precision map, when the clusters partition the index. */
  lemma PrecisionMapFromClusters(metric: Metric, sys: OutputSet, gold: OutputSet, pre: map<string, real>)
    requires forall m :: m in sys.index ==>
      sys.index[m].kbId in sys.clusters && sys.index[m] in sys.clusters[sys.index[m].kbId] && sys.index[m].mentionId == m
    requires ClusterMentions(sys.clusters, sys.clusters.Keys) == sys.index.Keys
    requires HoldsPrecisions(metric, sys, gold, pre, sys.clusters.Keys)
    ensures pre == PrecisionMapOf(metric, sys, gold)
  {
    var spec := PrecisionMapOf(metric, sys, gold);
    assert spec.Keys == sys.index.Keys;
    assert pre.Keys == sys.index.Keys;
    forall m | m in sys.index
      ensures pre[m] == spec[m]
    {
      PrecisionAt(metric, sys, gold, pre, m);
    }
    MapsEqual(pre, spec);
  }

  lemma MapsEqual<K, V>(a: map<K, V>, b: map<K, V>)
    requires a.Keys == b.Keys && forall k :: k in a ==> a[k] == b[k]
    ensures a == b
  {
  }

  lemma PrecisionAt(metric: Metric, sys: OutputSet, gold: OutputSet, pre: map<string, real>, m: string)
    requires m in sys.index
    requires sys.index[m].kbId in sys.clusters && sys.index[m] in sys.clusters[sys.index[m].kbId] && sys.index[m].mentionId == m
    requires HoldsPrecisions(metric, sys, gold, pre, sys.clusters.Keys)
    ensures m in pre && pre[m] == PrecisionMapOf(metric, sys, gold)[m]
  {
  }

  lemma HoldsNoPrecisions(metric: Metric, sys: OutputSet, gold: OutputSet)
    ensures HoldsPrecisions(metric, sys, gold, map[], {})
  {
    assert ClusterMentions(sys.clusters, {}) == {};
  }

  /** One round of the loop of `precision`: the precisions of the members of
      the cluster of `kbId` join the map. */
  method PutCluster(metric: Metric, sys: OutputSet, gold: OutputSet, sysIndex: Index, goldIndex: Index,
                    pre: map<string, real>, ghost visited: set<string>, kbId: string)
    returns (out: map<string, real>)
    requires Clustered(sys, gold)
    requires sysIndex == KbIndex(sys) && goldIndex == KbIndex(gold)
    requires kbId in sys.clusters && kbId !in visited
    requires HoldsPrecisions(metric, sys, gold, pre, visited)
    ensures HoldsPrecisions(metric, sys, gold, out, visited + {kbId})
  {
    ClusterFacts(sys, gold, visited, kbId);
    out := PutClusterPrecisions(metric, sys.clusters[kbId], sysIndex, goldIndex, pre);
    HoldsPrecisionsStep(metric, sys, gold, pre, out, visited, kbId);
  }

  /** `precision(sys, gold)`: visits the clusters of `sys` in an unspecified
      order and maps each member's mention id to its precision. Correctness
      looks up both mentions in `gold`, so gold must know every system mention. */
  method PrecisionMap(metric: Metric, sys: OutputSet, gold: OutputSet) returns (pre: map<string, real>)
    requires Built(sys)
    requires sys.index.Keys <= gold.index.Keys
    ensures pre == PrecisionMapOf(metric, sys, gold)
  {
    BuiltIsClustered(sys, gold);
    IndexInClusters(sys);
    pre := PutClusters(metric, sys, gold);
    PrecisionMapFromClusters(metric, sys, gold, pre);
  }

  /** The loop of `precision` over the clusters of `sys`. */
  method PutClusters(metric: Metric, sys: OutputSet, gold: OutputSet) returns (pre: map<string, real>)
    requires Clustered(sys, gold)
    ensures HoldsPrecisions(metric, sys, gold, pre, sys.clusters.Keys)
  {
    var sysIndex := KbIndex(sys);
    var goldIndex := KbIndex(gold);
    pre := map[];
    var todo := sys.clusters.Keys;
    ghost var visited: set<string> := {};
    HoldsNoPrecisions(metric, sys, gold);
    while todo != {}
      invariant todo + visited == sys.clusters.Keys && todo !! visited
      invariant HoldsPrecisions(metric, sys, gold, pre, visited)
    {
      var kbId :| kbId in todo;
      pre := PutCluster(metric, sys, gold, sysIndex, goldIndex, pre, visited, kbId);
      visited := visited + {kbId};
      todo := todo - {kbId};
    }
  }

  // ---------------------------------------------------------------------
  // Averages and F1

  ghost function ValueTerm(values: map<string, real>): string -> real
  {
    m => if m in values then values[m] else 0.0
  }

  /** The mean of `values` over the mentions `ms`; None where the source
      divides by a zero count. */
  ghost function MeanOf(ms: set<string>, values: map<string, real>): Option<real>
  {
    if ms == {} then None else Some(Sum(ms, ValueTerm(values)) / |ms| as real)
  }

  /** The sum of `values` over `ms`, in an unspecified order. */
  method SumValues(ms: set<string>, values: map<string, real>) returns (s: real)
    requires ms <= values.Keys
    ensures s == Sum(ms, ValueTerm(values))
  {
    s := 0.0;
    var todo := ms;
    while todo != {}
      invariant todo <= ms
      invariant s == Sum(ms - todo, ValueTerm(values))
    {
      var m :| m in todo;
      s := s + values[m];
      SumStep(ms, todo, ValueTerm(values), m);
      todo := todo - {m};
    }
    assert ms - {} == ms;
  }

  method Mean(ms: set<string>, values: map<string, real>) returns (mean: Option<real>)
    requires ms <= values.Keys
    ensures mean == MeanOf(ms, values)
  {
    var s := SumValues(ms, values);
    if |ms| == 0 {
      mean := None;
    } else {
      mean := Some(s / |ms| as real);
    }
  }

  /** `averagePrecision`: the mean system precision over the focus mentions,
      each of which the system must know. */
  method AveragePrecision(e: Evaluation) returns (p: Option<real>)
    requires Built(e.sys) && e.sys.index.Keys <= e.gold.index.Keys
    requires e.focus.index.Keys <= e.sys.index.Keys
    ensures p == MeanOf(e.focus.index.Keys, PrecisionMapOf(e.metric, e.sys, e.gold))
  {
    var pre := PrecisionMap(e.metric, e.sys, e.gold);
    p := Mean(e.focus.index.Keys, pre);
  }

  /** `averageRecall`: the mean gold precision over the focus mentions. */
  method AverageRecall(e: Evaluation) returns (r: Option<real>)
    requires Built(e.gold) && e.gold.index.Keys <= e.sys.index.Keys
    requires e.focus.index.Keys <= e.gold.index.Keys
    ensures r == MeanOf(e.focus.index.Keys, PrecisionMapOf(e.metric, e.gold, e.sys))
  {
    var rec := PrecisionMap(e.metric, e.gold, e.sys);
    r := Mean(e.focus.index.Keys, rec);
  }

  /** The harmonic mean of a precision and a recall, 0 where both are 0. */
  function F1(p: real, r: real): real
  {
    if p + r > 0.0 then 2.0 * p * r / (p + r) else 0.0
  }

  /** `macroAverageF1Score`: F1 of the averages. An undefined average is
      Java's NaN, for which the comparison is false, so the score is 0. */
  function MacroF1(p: Option<real>, r: Option<real>): real
  {
    if p.Some? && r.Some? then F1(p.value, r.value) else 0.0
  }

  method MacroAverageF1Score(e: Evaluation) returns (f: real)
    requires Built(e.sys) && Built(e.gold)
    requires e.sys.index.Keys == e.gold.index.Keys && e.focus.index.Keys <= e.sys.index.Keys
    ensures f == MacroF1(MeanOf(e.focus.index.Keys, PrecisionMapOf(e.metric, e.sys, e.gold)),
                         MeanOf(e.focus.index.Keys, PrecisionMapOf(e.metric, e.gold, e.sys)))
  {
    var p := AveragePrecision(e);
    var r := AverageRecall(e);
    if p.Some? && r.Some? && p.value + r.value > 0.0 {
      f := 2.0 * p.value * r.value / (p.value + r.value);
    } else {
      f := 0.0;
    }
  }

  ghost function F1Term(pre: map<string, real>, rec: map<string, real>): string -> real
  {
    m => if m in pre && m in rec then F1(pre[m], rec[m]) else 0.0
  }

  /** The mean per-mention F1 over `ms`; None where the source divides by a
      zero count. */
  ghost function MicroF1Of(ms: set<string>, pre: map<string, real>, rec: map<string, real>): Option<real>
  {
    if ms == {} then None else Some(Sum(ms, F1Term(pre, rec)) / |ms| as real)
  }

  /** The sum of the per-mention F1 over `ms`, in an unspecified order,
      skipping mentions whose precision and recall are both 0. */
  method SumF1(ms: set<string>, pre: map<string, real>, rec: map<string, real>) returns (sum: real)
    requires ms <= pre.Keys && ms <= rec.Keys
    ensures sum == Sum(ms, F1Term(pre, rec))
  {
    sum := 0.0;
    var todo := ms;
    while todo != {}
      invariant todo <= ms
      invariant sum == Sum(ms - todo, F1Term(pre, rec))
    {
      var m :| m in todo;
      if pre[m] + rec[m] > 0.0 {
        sum := sum + 2.0 * pre[m] * rec[m] / (pre[m] + rec[m]);
      }
      SumStep(ms, todo, F1Term(pre, rec), m);
      todo := todo - {m};
    }
    assert ms - {} == ms;
  }

  /** `microAverageF1Score`: the per-mention F1 averaged over the focus
      mentions. */
  method MicroAverageF1Score(e: Evaluation) returns (f: Option<real>)
    requires Built(e.sys) && Built(e.gold)
    requires e.sys.index.Keys == e.gold.index.Keys && e.focus.index.Keys <= e.sys.index.Keys
    ensures f == MicroF1Of(e.focus.index.Keys, PrecisionMapOf(e.metric, e.sys, e.gold), PrecisionMapOf(e.metric, e.gold, e.sys))
  {
    var pre := PrecisionMap(e.metric, e.sys, e.gold);
    var rec := PrecisionMap(e.metric, e.gold, e.sys);
    var sum := SumF1(e.focus.index.Keys, pre, rec);
    if |e.focus.index.Keys| == 0 {
      f := None;
    } else {
      f := Some(sum / |e.focus.index.Keys| as real);
    }
  }

  // ---------------------------------------------------------------------
  // Properties of the scores

  lemma RatioMonotone(x: real, y: real, n: real)
    requires x <= y && n > 0.0
    ensures x / n <= y / n
  {
    assert y / n - x / n == (y - x) / n;
  }

  /** An output's precision lies in [0, 1]. Under B2 an output of its own
      cluster that both indexes know is correct with itself, so its precision
      is positive. */
  lemma OutputPrecisionBounds(metric: Metric, a: Output, cluster: set<Output>, sysIndex: Index, goldIndex: Index)
    ensures 0.0 <= OutputPrecision(metric, a, cluster, sysIndex, goldIndex) <= 1.0
    ensures metric == B2 && a in cluster && Defined(a.mentionId, a.mentionId, sysIndex, goldIndex) ==>
      OutputPrecision(metric, a, cluster, sysIndex, goldIndex) > 0.0
  {
    var ps := OutputPartners(metric, a, cluster, sysIndex, goldIndex);
    SubsetCard(ps, cluster);
    if metric == B2 && a in cluster && Defined(a.mentionId, a.mentionId, sysIndex, goldIndex) {
      assert a in ps;
    }
    if cluster != {} {
      RatioBounds(|ps| as real, |cluster| as real);
    }
  }

  /** The extended correctness of BCubedPlusEvaluation admits fewer partners,
      so an output's B3 precision never exceeds its B2 precision. */
  lemma PlusAtMostPlain(a: Output, cluster: set<Output>, sysIndex: Index, goldIndex: Index)
    ensures OutputPrecision(B3, a, cluster, sysIndex, goldIndex) <= OutputPrecision(B2, a, cluster, sysIndex, goldIndex)
  {
    var p3 := OutputPartners(B3, a, cluster, sysIndex, goldIndex);
    var p2 := OutputPartners(B2, a, cluster, sysIndex, goldIndex);
    SubsetCard(p3, p2);
    if cluster != {} {
      RatioMonotone(|p3| as real, |p2| as real, |cluster| as real);
    }
  }

  /** Every mention of the system has a precision in [0, 1], positive under
      B2: `precision()` and, with the roles exchanged, `recall()`. */
  lemma PrecisionMapBounds(metric: Metric, sys: OutputSet, gold: OutputSet)
    requires Built(sys) && sys.index.Keys <= gold.index.Keys
    ensures PrecisionMapOf(metric, sys, gold).Keys == sys.index.Keys
    ensures forall m :: m in PrecisionMapOf(metric, sys, gold) ==>
      && 0.0 <= PrecisionMapOf(metric, sys, gold)[m] <= 1.0
      && (metric == B2 ==> PrecisionMapOf(metric, sys, gold)[m] > 0.0)
  {
    IndexInClusters(sys);
    forall m | m in sys.index
      ensures 0.0 <= PrecisionMapOf(metric, sys, gold)[m] <= 1.0
      ensures metric == B2 ==> PrecisionMapOf(metric, sys, gold)[m] > 0.0
    {
      var o := sys.index[m];
      OutputPrecisionBounds(metric, o, sys.clusters[o.kbId], KbIndex(sys), KbIndex(gold));
    }
  }

  /** Mention by mention, B3 precision is at most B2 precision. */
  lemma PlusMapAtMostPlain(sys: OutputSet, gold: OutputSet)
    ensures PrecisionMapOf(B3, sys, gold).Keys == PrecisionMapOf(B2, sys, gold).Keys
    ensures forall m :: m in PrecisionMapOf(B3, sys, gold) ==>
      PrecisionMapOf(B3, sys, gold)[m] <= PrecisionMapOf(B2, sys, gold)[m]
  {
    forall m | m in sys.index && sys.index[m].kbId in sys.clusters
      ensures PrecisionMapOf(B3, sys, gold)[m] <= PrecisionMapOf(B2, sys, gold)[m]
    {
      var o := sys.index[m];
      PlusAtMostPlain(o, sys.clusters[o.kbId], KbIndex(sys), KbIndex(gold));
    }
  }

  /** Scored against itself, every member of a cluster is correct with every
      other member. */
  lemma SelfPartners(metric: Metric, os: OutputSet, k: string, o: Output)
    requires Built(os) && k in os.clusters && o in os.clusters[k]
    ensures OutputPartners(metric, o, os.clusters[k], KbIndex(os), KbIndex(os)) == os.clusters[k]
  {
    BuiltStructure(os);
    var index := KbIndex(os);
    forall b | b in os.clusters[k]
      ensures b in OutputPartners(metric, o, os.clusters[k], index, index)
    {
      assert index[b.mentionId] == b.kbId == k;
      assert index[o.mentionId] == o.kbId == k;
    }
  }

  /** An output set scored against itself gives every mention precision 1. */
  lemma PerfectPrecisionMap(metric: Metric, os: OutputSet)
    requires Built(os)
    ensures forall m :: m in PrecisionMapOf(metric, os, os) ==> PrecisionMapOf(metric, os, os)[m] == 1.0
  {
    IndexInClusters(os);
    forall m | m in os.index
      ensures PrecisionMapOf(metric, os, os)[m] == 1.0
    {
      var o := os.index[m];
      SelfPartners(metric, os, o.kbId, o);
      RatioOne(|os.clusters[o.kbId]| as real, |os.clusters[o.kbId]| as real);
    }
  }

  /** A mean of values in [0, 1] is defined exactly for a non-empty set of
      mentions and lies in [0, 1]; it is positive if every value is. */
  lemma MeanBounds(ms: set<string>, values: map<string, real>)
    requires forall m :: m in ms ==> m in values && 0.0 <= values[m] <= 1.0
    ensures MeanOf(ms, values).Some? <==> ms != {}
    ensures MeanOf(ms, values).Some? ==> 0.0 <= MeanOf(ms, values).value <= 1.0
    ensures ms != {} && (forall m :: m in ms ==> values[m] > 0.0) ==> MeanOf(ms, values).value > 0.0
  {
    if ms != {} {
      var f := ValueTerm(values);
      SumNonNegative(ms, f);
      SumAtMostCount(ms, f);
      RatioBounds(Sum(ms, f), |ms| as real);
      if forall m :: m in ms ==> values[m] > 0.0 {
        SumPositive(ms, f);
      }
    }
  }

  /** The mean of values that are all 1 is 1. */
  lemma MeanOfOnes(ms: set<string>, values: map<string, real>)
    requires ms != {} && forall m :: m in ms ==> m in values && values[m] == 1.0
    ensures MeanOf(ms, values) == Some(1.0)
  {
    SumCount(ms, ValueTerm(values));
    RatioOne(Sum(ms, ValueTerm(values)), |ms| as real);
  }

  /** Means are monotone in the values. */
  lemma MeanMonotone(ms: set<string>, a: map<string, real>, b: map<string, real>)
    requires ms != {} && forall m :: m in ms ==> m in a && m in b && a[m] <= b[m]
    ensures MeanOf(ms, a).value <= MeanOf(ms, b).value
  {
    SumMonotone(ms, ValueTerm(a), ValueTerm(b));
    RatioMonotone(Sum(ms, ValueTerm(a)), Sum(ms, ValueTerm(b)), |ms| as real);
  }

  /** `averagePrecision` lies in [0, 1], is defined exactly for a non-empty
      focus, and is positive under B2. */
  lemma AveragePrecisionBounds(e: Evaluation)
    requires Built(e.sys) && e.sys.index.Keys <= e.gold.index.Keys
    requires e.focus.index.Keys <= e.sys.index.Keys
    ensures MeanOf(e.focus.index.Keys, PrecisionMapOf(e.metric, e.sys, e.gold)).Some? <==> e.focus.index != map[]
    ensures MeanOf(e.focus.index.Keys, PrecisionMapOf(e.metric, e.sys, e.gold)).Some? ==>
      && 0.0 <= MeanOf(e.focus.index.Keys, PrecisionMapOf(e.metric, e.sys, e.gold)).value <= 1.0
      && (e.metric == B2 ==> MeanOf(e.focus.index.Keys, PrecisionMapOf(e.metric, e.sys, e.gold)).value > 0.0)
  {
    PrecisionMapBounds(e.metric, e.sys, e.gold);
    MeanBounds(e.focus.index.Keys, PrecisionMapOf(e.metric, e.sys, e.gold));
    assert e.focus.index == map[] <==> e.focus.index.Keys == {};
  }

  /** The average B3 precision never exceeds the average B2 precision. */
  lemma PlusAverageAtMostPlain(sys: OutputSet, gold: OutputSet, focus: OutputSet)
    requires focus.index.Keys <= sys.index.Keys && focus.index != map[]
    ensures MeanOf(focus.index.Keys, PrecisionMapOf(B3, sys, gold)).value
         <= MeanOf(focus.index.Keys, PrecisionMapOf(B2, sys, gold)).value
  {
    PlusMapAtMostPlain(sys, gold);
    assert focus.index.Keys != {} by {
      var m :| m in focus.index;
    }
    MeanMonotone(focus.index.Keys, PrecisionMapOf(B3, sys, gold), PrecisionMapOf(B2, sys, gold));
  }

  /** F1 lies in [0, 1], between the smaller and the larger of precision and
      recall, and equals them when they agree. */
  lemma F1Bounds(p: real, r: real)
    requires 0.0 <= p <= 1.0 && 0.0 <= r <= 1.0
    ensures 0.0 <= F1(p, r) <= 1.0
    ensures p + r > 0.0 ==> (p <= r ==> p <= F1(p, r) <= r) && (r <= p ==> r <= F1(p, r) <= p)
    ensures F1(p, p) == p
  {
    if p + r > 0.0 {
      if p <= r {
        F1Between(p, r);
      } else {
        F1Between(r, p);
      }
    }
    if p > 0.0 {
      F1Between(p, p);
    }
  }

  /** The harmonic mean lies between its arguments and does not depend on
      their order. */
  lemma F1Between(lo: real, hi: real)
    requires 0.0 <= lo <= hi && lo + hi > 0.0
    ensures lo <= F1(lo, hi) <= hi
    ensures F1(lo, hi) == F1(hi, lo)
  {
    var s := lo + hi;
    assert 2.0 * lo * hi == 2.0 * hi * lo;
    assert lo * lo <= lo * hi;
    assert lo * s <= 2.0 * lo * hi;
    assert lo * hi <= hi * hi;
    assert 2.0 * lo * hi <= hi * s;
    DivBetween(2.0 * lo * hi, s, lo, hi);
  }

  lemma DivBetween(x: real, s: real, lo: real, hi: real)
    requires s > 0.0 && lo * s <= x <= hi * s
    ensures lo <= x / s <= hi
  {
    assert x / s * s == x;
  }

  /** Macro F1 lies in [0, 1] whenever its averages do. */
  lemma MacroF1Bounds(p: Option<real>, r: Option<real>)
    requires p.Some? ==> 0.0 <= p.value <= 1.0
    requires r.Some? ==> 0.0 <= r.value <= 1.0
    ensures 0.0 <= MacroF1(p, r) <= 1.0
  {
    if p.Some? && r.Some? {
      F1Bounds(p.value, r.value);
    }
  }

  /** Micro F1 over per-mention scores in [0, 1] is defined exactly for a
      non-empty focus and lies in [0, 1]. */
  lemma MicroF1Bounds(ms: set<string>, pre: map<string, real>, rec: map<string, real>)
    requires forall m :: m in ms ==> m in pre && m in rec && 0.0 <= pre[m] <= 1.0 && 0.0 <= rec[m] <= 1.0
    ensures MicroF1Of(ms, pre, rec).Some? <==> ms != {}
    ensures MicroF1Of(ms, pre, rec).Some? ==> 0.0 <= MicroF1Of(ms, pre, rec).value <= 1.0
  {
    if ms != {} {
      var f := F1Term(pre, rec);
      forall m | m in ms
        ensures 0.0 <= f(m) <= 1.0
      {
        F1Bounds(pre[m], rec[m]);
      }
      SumNonNegative(ms, f);
      SumAtMostCount(ms, f);
      RatioBounds(Sum(ms, f), |ms| as real);
    }
  }

  /** A system output identical to the gold output scores 1 on every average
      of a non-empty focus within it, for both metrics. */
  lemma PerfectScores(metric: Metric, os: OutputSet, focus: OutputSet)
    requires Built(os) && focus.index.Keys <= os.index.Keys && focus.index != map[]
    ensures MeanOf(focus.index.Keys, PrecisionMapOf(metric, os, os)) == Some(1.0)
    ensures MacroF1(MeanOf(focus.index.Keys, PrecisionMapOf(metric, os, os)),
                    MeanOf(focus.index.Keys, PrecisionMapOf(metric, os, os))) == 1.0
    ensures MicroF1Of(focus.index.Keys, PrecisionMapOf(metric, os, os), PrecisionMapOf(metric, os, os)) == Some(1.0)
  {
    var ms := focus.index.Keys;
    var values := PrecisionMapOf(metric, os, os);
    assert ms != {} by {
      var m :| m in focus.index;
    }
    PerfectPrecisionMap(metric, os);
    MeanOfOnes(ms, values);
    F1Bounds(1.0, 1.0);
    forall m | m in ms
      ensures F1Term(values, values)(m) == 1.0
    {
      F1Bounds(values[m], values[m]);
    }
    SumCount(ms, F1Term(values, values));
    RatioOne(Sum(ms, F1Term(values, values)), |ms| as real);
  }
}
