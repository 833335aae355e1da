// System and gold linking outputs of the Java scorer: the validated `Output`
// value, the line processor that reads a results file, and the `OutputSet`
// that groups outputs into clusters by KB id and indexes them by mention id.
module TacOutput {
  import opened Wrappers
  import opened Text
  import opened Collections
  import opened Sums

  // ---------------------------------------------------------------------
  // Output

  /** One linking decision: a mention query, the KB node (or NIL id) it is
      linked to, and the system's confidence. */
  datatype Output = Output(mentionId: string, kbId: string, confidence: real)

  datatype OutputError = EmptyMentionId | EmptyKbId | ConfidenceOutOfRange(confidence: real)

  /** The `Output` constructor: both ids must be non-empty and the confidence
      in [0, 1], checked in that order; the getters return the arguments. */
  function NewOutput(mentionId: string, kbId: string, confidence: real): (r: Result<Output, OutputError>)
    ensures r.Ok? <==> mentionId != [] && kbId != [] && 0.0 <= confidence <= 1.0
    ensures r.Ok? ==> r.value.mentionId == mentionId && r.value.kbId == kbId && r.value.confidence == confidence
    ensures mentionId == [] ==> r == Err(EmptyMentionId)
    ensures mentionId != [] && kbId == [] ==> r == Err(EmptyKbId)
  {
    if mentionId == [] then Err(EmptyMentionId)
    else if kbId == [] then Err(EmptyKbId)
    else if !(0.0 <= confidence <= 1.0) then Err(ConfidenceOutOfRange(confidence))
    else Ok(Output(mentionId, kbId, confidence))
  }

  // ---------------------------------------------------------------------
  // OutputLineProcessor

  datatype LineError =
    | WrongPartCount(parts: nat)
    | BadNumber(text: string)
    | BadOutput(error: OutputError)

  /** The output named by the parts of a line: two or three parts, the
      mention id, the KB id and an optional confidence that defaults to 1.
      `parseDouble` stands for `Double.parseDouble`, None where it throws. */
  function OutputOfParts(parts: seq<string>, parseDouble: string -> Option<real>): (r: Result<Output, LineError>)
    ensures r.Err? && r.error.WrongPartCount? <==> !(2 <= |parts| <= 3)
    ensures r.Err? && r.error.WrongPartCount? ==> r.error.parts == |parts|
    ensures r.Ok? ==>
      || (parts == [r.value.mentionId, r.value.kbId] && r.value.confidence == 1.0)
      || (|parts| == 3 && parts[..2] == [r.value.mentionId, r.value.kbId]
          && parseDouble(parts[2]) == Some(r.value.confidence))
    ensures r.Ok? ==> 0.0 <= r.value.confidence <= 1.0
  {
    if |parts| < 2 || |parts| > 3 then Err(WrongPartCount(|parts|))
    else
      var confidence := if |parts| == 3 then parseDouble(parts[2]) else Some(1.0);
      if confidence.None? then Err(BadNumber(parts[2]))
      else match NewOutput(parts[0], parts[1], confidence.value)
        case Ok(o) => Ok(o)
        case Err(e) => Err(BadOutput(e))
  }

  /** `processLine` without its side effect: the trimmed line is split on
      runs of whitespace. */
  function ParseOutputLine(line: string, parseDouble: string -> Option<real>): Result<Output, LineError>
  {
    OutputOfParts(Fields(Trim(line)), parseDouble)
  }

  lemma OutputOfTwoParts(a: string, b: string, parseDouble: string -> Option<real>)
    requires a != [] && b != []
    ensures OutputOfParts([a, b], parseDouble) == Ok(Output(a, b, 1.0))
  {
  }

  lemma OutputOfThreeParts(o: Output, c: string, parseDouble: string -> Option<real>)
    requires o.mentionId != [] && o.kbId != []
    requires 0.0 <= o.confidence <= 1.0 && parseDouble(c) == Some(o.confidence)
    ensures OutputOfParts([o.mentionId, o.kbId, c], parseDouble) == Ok(o)
  {
  }

  /** A line holding two visible ids separated by a tab is read back as an
      output with those ids and full confidence. */
  lemma ParseTwoFields(mentionId: string, kbId: string, parseDouble: string -> Option<real>)
    requires mentionId != [] && Visible(mentionId) && kbId != [] && Visible(kbId)
    ensures ParseOutputLine(mentionId + "\t" + kbId, parseDouble) == Ok(Output(mentionId, kbId, 1.0))
  {
    FieldsOfTwo(mentionId, kbId);
    OutputOfTwoParts(mentionId, kbId, parseDouble);
  }

  /** A line of three visible fields is read back with the parsed confidence. */
  lemma ParseThreeFields(o: Output, confidenceText: string, parseDouble: string -> Option<real>)
    requires o.mentionId != [] && Visible(o.mentionId) && o.kbId != [] && Visible(o.kbId)
    requires confidenceText != [] && Visible(confidenceText)
    requires 0.0 <= o.confidence <= 1.0 && parseDouble(confidenceText) == Some(o.confidence)
    ensures ParseOutputLine(o.mentionId + "\t" + o.kbId + "\t" + confidenceText, parseDouble) == Ok(o)
  {
    FieldsOfThree(o.mentionId, o.kbId, confidenceText);
    OutputOfThreeParts(o, confidenceText, parseDouble);
  }

  /** Reads a linking results file line by line. */
  class OutputLineProcessor {
    const name: string
    var outputs: seq<Output>

    constructor(name: string)
      ensures this.name == name && outputs == []
    {
      this.name := name;
      outputs := [];
    }

    /** Appends the output of one accepted line; a malformed line changes
        nothing and is reported. */
    method ProcessLine(line: string, parseDouble: string -> Option<real>) returns (r: Outcome<LineError>)
      modifies this
      ensures ParseOutputLine(line, parseDouble).Ok? ==>
        r == Pass && outputs == old(outputs) + [ParseOutputLine(line, parseDouble).value]
      ensures ParseOutputLine(line, parseDouble).Err? ==>
        r == Fail(ParseOutputLine(line, parseDouble).error) && outputs == old(outputs)
    {
      var parsed := ParseOutputLine(line, parseDouble);
      if parsed.Err? {
        return Fail(parsed.error);
      }
      outputs := outputs + [parsed.value];
      r := Pass;
    }

    /** The output set of every line accepted so far. */
    method GetResult() returns (r: Result<OutputSet, string>)
      ensures r.Ok? <==> Distinct(MentionIds(outputs))
      ensures r.Ok? ==> r.value.name == name && r.value.links == outputs && Built(r.value)
    {
      r := NewInstance(name, outputs);
    }
  }

  // ---------------------------------------------------------------------
  // OutputSet

  /** A named list of outputs, its clusters keyed by KB id and its index from
      mention id to output. */
  datatype OutputSet = OutputSet(
    name: string,
    links: seq<Output>,
    clusters: map<string, set<Output>>,
    index: map<string, Output>)

  function MentionIds(links: seq<Output>): (ids: seq<string>)
    ensures |ids| == |links|
  {
    seq(|links|, i requires 0 <= i < |links| => links[i].mentionId)
  }

  function IndexEntries(links: seq<Output>): (entries: seq<(string, Output)>)
    ensures |entries| == |links|
  {
    seq(|links|, i requires 0 <= i < |links| => (links[i].mentionId, links[i]))
  }

  /** Each output added, in order, to the cluster of its own KB id. */
  ghost function ClustersOf(links: seq<Output>): map<string, set<Output>>
  {
    if links == [] then map[]
    else
      var clusters := ClustersOf(links[..|links| - 1]);
      var link := links[|links| - 1];
      clusters[link.kbId := (if link.kbId in clusters then clusters[link.kbId] else {}) + {link}]
  }

  /** The state `newInstance` builds from `links`. */
  ghost predicate Built(os: OutputSet)
  {
    os.clusters == ClustersOf(os.links) && BuildMap(IndexEntries(os.links)) == Ok(os.index)
  }

  /** `OutputSet.newInstance`: fills the clusters and the index builder in one
      pass; building the index fails on a repeated mention id. */
  method NewInstance(name: string, links: seq<Output>) returns (r: Result<OutputSet, string>)
    ensures r.Ok? <==> Distinct(MentionIds(links))
    ensures r.Ok? ==> r.value.name == name && r.value.links == links && Built(r.value)
    ensures r.Err? ==> exists i, j :: 0 <= i < j < |links| && links[i].mentionId == r.error && links[j].mentionId == r.error
  {
    var clusters: map<string, set<Output>> := map[];
    var entries: seq<(string, Output)> := [];
    for i := 0 to |links|
      invariant clusters == ClustersOf(links[..i])
      invariant entries == IndexEntries(links[..i])
    {
      var link := links[i];
      assert links[..i + 1][..i] == links[..i];
      assert links[..i + 1][i] == link;
      ghost var next := ClustersOf(links[..i + 1]);
      assert next == clusters[link.kbId := (if link.kbId in clusters then clusters[link.kbId] else {}) + {link}];
      if link.kbId in clusters {
        clusters := clusters[link.kbId := clusters[link.kbId] + {link}];
      } else {
        assert {} + {link} == {link};
        clusters := clusters[link.kbId := {link}];
      }
      assert clusters == next;
      entries := entries + [(link.mentionId, link)];
    }
    assert links[..|links|] == links;
    BuildMapSpec(entries);
    assert Firsts(entries) == MentionIds(links);
    var index := BuildMap(entries);
    match index
    case Err(k) =>
      r := Err(k);
    case Ok(m) =>
      r := Ok(OutputSet(name, links, clusters, m));
  }

  /** Every output lies in the cluster of its own KB id, and the clusters hold
      nothing else. */
  lemma {:induction false} ClustersOfSpec(links: seq<Output>)
    ensures forall o :: o in links ==> o.kbId in ClustersOf(links) && o in ClustersOf(links)[o.kbId]
    ensures forall k, o :: k in ClustersOf(links) && o in ClustersOf(links)[k] ==> o in links && o.kbId == k
    ensures forall k :: k in ClustersOf(links) ==> ClustersOf(links)[k] != {}
  {
    if links != [] {
      var init := links[..|links| - 1];
      ClustersOfSpec(init);
      assert links == init + [links[|links| - 1]];
    }
  }

  /** The facts about a built output set the scorer relies on. */
  lemma BuiltStructure(os: OutputSet)
    requires Built(os)
    ensures Distinct(MentionIds(os.links))
    ensures os.index.Keys == (set o | o in os.links :: o.mentionId)
    ensures forall o :: o in os.links ==> os.index[o.mentionId] == o
    ensures forall m :: m in os.index ==> os.index[m] in os.links && os.index[m].mentionId == m
    ensures forall o :: o in os.links ==> o.kbId in os.clusters && o in os.clusters[o.kbId]
    ensures forall k, o :: k in os.clusters && o in os.clusters[k] ==> o in os.links && o.kbId == k
    ensures forall k :: k in os.clusters ==> os.clusters[k] != {}
  {
    BuiltIndex(os);
    ClustersOfSpec(os.links);
  }

  /** The index of a built output set maps each mention id to its output. */
  lemma BuiltIndex(os: OutputSet)
    requires BuildMap(IndexEntries(os.links)) == Ok(os.index)
    ensures Distinct(MentionIds(os.links))
    ensures os.index.Keys == (set o | o in os.links :: o.mentionId)
    ensures forall o :: o in os.links ==> os.index[o.mentionId] == o
    ensures forall m :: m in os.index ==> os.index[m] in os.links && os.index[m].mentionId == m
  {
    var entries := IndexEntries(os.links);
    BuildMapSpec(entries);
    assert Firsts(entries) == MentionIds(os.links);
    assert (set e | e in entries :: e.0) == (set o | o in os.links :: o.mentionId) by {
      forall o | o in os.links
        ensures o.mentionId in (set e | e in entries :: e.0)
      {
        var i :| 0 <= i < |os.links| && os.links[i] == o;
        assert entries[i] in entries;
      }
    }
    forall o | o in os.links
      ensures os.index[o.mentionId] == o
    {
      var i :| 0 <= i < |os.links| && os.links[i] == o;
      assert entries[i].0 == o.mentionId;
    }
  }

  ghost function SizeTerm(clusters: map<string, set<Output>>): string -> real
  {
    k => if k in clusters then |clusters[k]| as real else 0.0
  }

  /** Adding a new member to one cluster adds one to the sum of the sizes. */
  lemma AddToCluster(before: map<string, set<Output>>, k: string, x: Output)
    requires k in before ==> x !in before[k]
    ensures var after := before[k := (if k in before then before[k] else {}) + {x}];
      Sum(after.Keys, SizeTerm(after)) == Sum(before.Keys, SizeTerm(before)) + 1.0
  {
    if k in before {
      AddToExistingCluster(before, k, x);
    } else {
      AddNewCluster(before, k, x);
    }
  }

  lemma AddToExistingCluster(before: map<string, set<Output>>, k: string, x: Output)
    requires k in before && x !in before[k]
    ensures var after := before[k := before[k] + {x}];
      Sum(after.Keys, SizeTerm(after)) == Sum(before.Keys, SizeTerm(before)) + 1.0
  {
    var after := before[k := before[k] + {x}];
    var fa, fb := SizeTerm(after), SizeTerm(before);
    var rest := before.Keys - {k};
    SumCongruent(rest, fb, fa);
    SumRemove(after.Keys, fa, k);
    assert after.Keys - {k} == rest;
    assert |after[k]| == |before[k]| + 1;
    assert fa(k) == fb(k) + 1.0;
    SumRemove(before.Keys, fb, k);
  }

  lemma AddNewCluster(before: map<string, set<Output>>, k: string, x: Output)
    requires k !in before
    ensures var after := before[k := {} + {x}];
      Sum(after.Keys, SizeTerm(after)) == Sum(before.Keys, SizeTerm(before)) + 1.0
  {
    var one: set<Output> := {} + {x};
    assert one == {x};
    var after := before[k := one];
    var fa, fb := SizeTerm(after), SizeTerm(before);
    forall j | j in before.Keys
      ensures fb(j) == fa(j)
    {
      assert j != k && after[j] == before[j];
    }
    SumCongruent(before.Keys, fb, fa);
    assert k in after.Keys;
    SumRemove(after.Keys, fa, k);
    assert after.Keys - {k} == before.Keys;
    assert fa(k) == |one| as real == 1.0;
  }

  /** Without repeated outputs, the cluster sizes add up to the number of
      links: every link is in exactly one cluster. */
  lemma {:induction false} ClusterSizes(links: seq<Output>)
    requires Distinct(links)
    ensures Sum(ClustersOf(links).Keys, SizeTerm(ClustersOf(links))) == |links| as real
  {
    if links != [] {
      var init := links[..|links| - 1];
      var link := links[|links| - 1];
      ClusterSizes(init);
      ClustersOfSpec(init);
      assert link !in init by {
        forall i | 0 <= i < |init|
          ensures init[i] != link
        {
          assert links[i] != links[|links| - 1];
        }
      }
      AddToCluster(ClustersOf(init), link.kbId, link);
    }
  }

  /** The sum of the cluster sizes of a built set is its number of links. */
  lemma BuiltClusterSizes(os: OutputSet)
    requires Built(os)
    ensures Sum(os.clusters.Keys, SizeTerm(os.clusters)) == |os.links| as real
  {
    BuiltStructure(os);
    assert Distinct(os.links) by {
      forall i, j | 0 <= i < j < |os.links|
        ensures os.links[i] != os.links[j]
      {
        assert MentionIds(os.links)[i] != MentionIds(os.links)[j];
      }
    }
    ClusterSizes(os.links);
  }

  /** `getMentionCount`. */
  function MentionCount(os: OutputSet): nat
  {
    |os.index|
  }

  /** A built set has one mention per link, all distinct. */
  lemma MentionCountSpec(os: OutputSet)
    requires Built(os)
    ensures MentionCount(os) == |os.links|
    ensures MentionCount(os) == |set o | o in os.links :: o.mentionId|
  {
    BuiltStructure(os);
    DistinctCard(MentionIds(os.links));
    assert (set m | m in MentionIds(os.links)) == (set o | o in os.links :: o.mentionId) by {
      forall o | o in os.links
        ensures o.mentionId in MentionIds(os.links)
      {
        var i :| 0 <= i < |os.links| && os.links[i] == o;
        assert MentionIds(os.links)[i] == o.mentionId;
      }
    }
  }

  /** `getKbIdForMention`; an unknown mention makes the source dereference
      null, so it is excluded. */
  function KbIdForMention(os: OutputSet, mentionId: string): string
    requires mentionId in os.index
  {
    os.index[mentionId].kbId
  }

  /** `inSameCluster`. */
  predicate InSameCluster(os: OutputSet, a: string, b: string)
    requires a in os.index && b in os.index
  {
    KbIdForMention(os, a) == KbIdForMention(os, b)
  }

  /** Two mentions of a built set are in the same cluster exactly when the
      cluster of the first holds the output of the second; the relation is
      reflexive and symmetric. */
  lemma InSameClusterSpec(os: OutputSet, a: string, b: string)
    requires Built(os) && a in os.index && b in os.index
    ensures InSameCluster(os, a, b) <==>
      KbIdForMention(os, a) in os.clusters && os.index[b] in os.clusters[KbIdForMention(os, a)]
    ensures InSameCluster(os, a, a)
    ensures InSameCluster(os, a, b) == InSameCluster(os, b, a)
  {
    BuiltStructure(os);
  }
}
