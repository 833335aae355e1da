// `EntityLinkingAnnotator`: find the mentions of a document (maximal runs
// of tokens sharing a named-entity label other than "O"), group them by
// surface text, ask a candidate generator for every distinct text, rank the
// candidates and give every token of a mention the top-ranked id, or "/NIL".
module EntityLinking {

  /** A token: its text, its named-entity label and its character offsets
      in the document (`endPosition` is exclusive). */
  datatype Token = Token(text: string, ner: string, begin: nat, end: nat)

  datatype Document = Document(text: string, sentences: seq<seq<Token>>)

  /** The tokens `first .. last - 1` of a sentence. */
  datatype Run = Run(first: nat, last: nat)

  datatype Mention = Mention(sentence: nat, first: nat, last: nat)

  /** A token, by sentence and position in the sentence. */
  datatype Pos = Pos(sentence: nat, token: nat)

  const Other := "O"
  const Nil := "/NIL"

  // ------------------------------------------------------------ finding runs

  /** The end of the run that starts at `first`: the first position at or
      after `last` whose label differs from `first`'s, or the end. */
  function RunEnd(tokens: seq<Token>, first: nat, last: nat): (e: nat)
    requires first < last <= |tokens|
    ensures last <= e <= |tokens|
    decreases |tokens| - last
  {
    if last < |tokens| && tokens[last].ner == tokens[first].ner then RunEnd(tokens, first, last + 1) else last
  }

  /** The runs of the tokens from `first` on, in order. */
  function Runs(tokens: seq<Token>, first: nat): seq<Run>
    requires first <= |tokens|
    decreases |tokens| - first
  {
    if first == |tokens| then []
    else
      var e := RunEnd(tokens, first, first + 1);
      [Run(first, e)] + Runs(tokens, e)
  }

  /** All tokens of a run carry its first token's label, and the token just
      after it, if any, does not. */
  lemma {:induction false} RunEndSpec(tokens: seq<Token>, first: nat, last: nat)
    requires first < last <= |tokens|
    requires forall k :: first <= k < last ==> tokens[k].ner == tokens[first].ner
    ensures forall k :: first <= k < RunEnd(tokens, first, last) ==> tokens[k].ner == tokens[first].ner
    ensures RunEnd(tokens, first, last) < |tokens| ==> tokens[RunEnd(tokens, first, last)].ner != tokens[first].ner
    decreases |tokens| - last
  {
    if last < |tokens| && tokens[last].ner == tokens[first].ner {
      RunEndSpec(tokens, first, last + 1);
    }
  }

  /** The runs partition the tokens from `a` to `b`: they are non-empty and
      contiguous, the first starts at `a` and the last ends at `b`. */
  ghost predicate Partition(runs: seq<Run>, a: nat, b: nat)
  {
    && (runs == [] <==> a == b)
    && (runs != [] ==> runs[0].first == a && runs[|runs| - 1].last == b)
    && (forall i :: 0 <= i < |runs| ==> a <= runs[i].first < runs[i].last <= b)
    && (forall i :: 0 <= i < |runs| - 1 ==> runs[i].last == runs[i + 1].first)
  }

  /** Each run is a stretch of one label. */
  ghost predicate Homogeneous(tokens: seq<Token>, runs: seq<Run>)
  {
    forall i, k :: 0 <= i < |runs| && runs[i].first <= k < runs[i].last <= |tokens| ==>
      tokens[k].ner == tokens[runs[i].first].ner
  }

  /** The token just after a run, if any, has another label: the runs are
      maximal. */
  ghost predicate Separated(tokens: seq<Token>, runs: seq<Run>)
  {
    forall i :: 0 <= i < |runs| && runs[i].first < runs[i].last < |tokens| ==>
      tokens[runs[i].last].ner != tokens[runs[i].first].ner
  }

  lemma {:induction false} RunsPartition(tokens: seq<Token>, first: nat)
    requires first <= |tokens|
    ensures Partition(Runs(tokens, first), first, |tokens|)
    decreases |tokens| - first
  {
    if first < |tokens| {
      var e := RunEnd(tokens, first, first + 1);
      RunsPartition(tokens, e);
      var rest := Runs(tokens, e);
      var runs := [Run(first, e)] + rest;
      assert runs[0] == Run(first, e);
      assert forall i :: 1 <= i < |runs| ==> runs[i] == rest[i - 1];
    }
  }

  lemma {:induction false} RunsHomogeneous(tokens: seq<Token>, first: nat)
    requires first <= |tokens|
    ensures Homogeneous(tokens, Runs(tokens, first))
    decreases |tokens| - first
  {
    if first < |tokens| {
      var e := RunEnd(tokens, first, first + 1);
      RunEndSpec(tokens, first, first + 1);
      RunsHomogeneous(tokens, e);
      var rest := Runs(tokens, e);
      var runs := [Run(first, e)] + rest;
      assert forall i :: 1 <= i < |runs| ==> runs[i] == rest[i - 1];
    }
  }

  lemma {:induction false} RunsSeparated(tokens: seq<Token>, first: nat)
    requires first <= |tokens|
    ensures Separated(tokens, Runs(tokens, first))
    decreases |tokens| - first
  {
    if first < |tokens| {
      var e := RunEnd(tokens, first, first + 1);
      RunEndSpec(tokens, first, first + 1);
      RunsSeparated(tokens, e);
      var rest := Runs(tokens, e);
      var runs := [Run(first, e)] + rest;
      assert forall i :: 1 <= i < |runs| ==> runs[i] == rest[i - 1];
    }
  }

  /** The mentions among the runs of sentence `s`: those not labelled "O". */
  function MentionsOfRuns(tokens: seq<Token>, s: nat, runs: seq<Run>): seq<Mention>
    requires forall i :: 0 <= i < |runs| ==> runs[i].first < |tokens|
  {
    if runs == [] then []
    else
      (if tokens[runs[0].first].ner != Other then [Mention(s, runs[0].first, runs[0].last)] else [])
      + MentionsOfRuns(tokens, s, runs[1..])
  }

  lemma {:induction false} RunsInside(tokens: seq<Token>, first: nat)
    requires first <= |tokens|
    ensures forall i :: 0 <= i < |Runs(tokens, first)| ==> Runs(tokens, first)[i].first < |tokens|
  {
    RunsPartition(tokens, first);
  }

  /** The mentions of sentences `s ..` of the document. */
  function MentionsFrom(sentences: seq<seq<Token>>, s: nat): seq<Mention>
    requires s <= |sentences|
    decreases |sentences| - s
  {
    if s == |sentences| then []
    else
      RunsInside(sentences[s], 0);
      MentionsOfRuns(sentences[s], s, Runs(sentences[s], 0)) + MentionsFrom(sentences, s + 1)
  }

  /** Every mention is a run of its sentence, of a label other than "O". */
  lemma {:induction false} MentionsAreRuns(tokens: seq<Token>, s: nat, runs: seq<Run>, m: Mention)
    requires forall i :: 0 <= i < |runs| ==> runs[i].first < |tokens|
    requires m in MentionsOfRuns(tokens, s, runs)
    ensures m.sentence == s && Run(m.first, m.last) in runs && tokens[m.first].ner != Other
  {
    if runs != [] && m !in (if tokens[runs[0].first].ner != Other then [Mention(s, runs[0].first, runs[0].last)] else []) {
      MentionsAreRuns(tokens, s, runs[1..], m);
    }
  }

  /** Every run not labelled "O" is a mention. */
  lemma {:induction false} RunsAreMentions(tokens: seq<Token>, s: nat, runs: seq<Run>, r: Run)
    requires forall i :: 0 <= i < |runs| ==> runs[i].first < |tokens|
    requires r in runs && tokens[r.first].ner != Other
    ensures Mention(s, r.first, r.last) in MentionsOfRuns(tokens, s, runs)
  {
    if r != runs[0] {
      RunsAreMentions(tokens, s, runs[1..], r);
    }
  }

  /** `findMentions`: scan each sentence for runs of equal label, keeping the
      runs not labelled "O". */
  method FindMentions(doc: Document) returns (mentions: seq<Mention>)
    ensures mentions == MentionsFrom(doc.sentences, 0)
  {
    mentions := [];
    var s := 0;
    while s < |doc.sentences|
      invariant 0 <= s <= |doc.sentences|
      invariant mentions + MentionsFrom(doc.sentences, s) == MentionsFrom(doc.sentences, 0)
    {
      var found := SentenceMentions(doc.sentences[s], s);
      RunsInside(doc.sentences[s], 0);
      assert MentionsFrom(doc.sentences, s) == found + MentionsFrom(doc.sentences, s + 1);
      mentions := mentions + found;
      s := s + 1;
    }
  }

  /** The inner loop of `findMentions`, for sentence `s`. */
  method SentenceMentions(tokens: seq<Token>, s: nat) returns (found: seq<Mention>)
    ensures forall i :: 0 <= i < |Runs(tokens, 0)| ==> Runs(tokens, 0)[i].first < |tokens|
    ensures found == MentionsOfRuns(tokens, s, Runs(tokens, 0))
  {
    RunsInside(tokens, 0);
    found := [];
    var first := 0;
    while first < |tokens|
      invariant 0 <= first <= |tokens|
      invariant forall i :: 0 <= i < |Runs(tokens, first)| ==> Runs(tokens, first)[i].first < |tokens|
      invariant found + MentionsOfRuns(tokens, s, Runs(tokens, first)) == MentionsOfRuns(tokens, s, Runs(tokens, 0))
      decreases |tokens| - first
    {
      var currentLabel := tokens[first].ner;
      var last := first + 1;
      while last < |tokens| && tokens[last].ner == currentLabel
        invariant first < last <= |tokens|
        invariant RunEnd(tokens, first, last) == RunEnd(tokens, first, first + 1)
        decreases |tokens| - last
      {
        last := last + 1;
      }
      RunStep(tokens, s, first, last);
      ghost var rest := MentionsOfRuns(tokens, s, Runs(tokens, last));
      if currentLabel != Other {
        assert (found + [Mention(s, first, last)]) + rest == found + ([Mention(s, first, last)] + rest);
        found := found + [Mention(s, first, last)];
      } else {
        assert [] + rest == rest;
      }
      first := last;
    }
  }

  /** One step of the outer loop: the run from `first` ends at `last`, and
      its mention, if any, comes before those of the runs after it. */
  lemma RunStep(tokens: seq<Token>, s: nat, first: nat, last: nat)
    requires first < last <= |tokens|
    requires RunEnd(tokens, first, last) == RunEnd(tokens, first, first + 1)
    requires !(last < |tokens| && tokens[last].ner == tokens[first].ner)
    ensures forall i :: 0 <= i < |Runs(tokens, last)| ==> Runs(tokens, last)[i].first < |tokens|
    ensures Runs(tokens, first) == [Run(first, last)] + Runs(tokens, last)
    ensures MentionsOfRuns(tokens, s, Runs(tokens, first)) ==
              (if tokens[first].ner != Other then [Mention(s, first, last)] else []) + MentionsOfRuns(tokens, s, Runs(tokens, last))
  {
    RunsInside(tokens, last);
    var rest := Runs(tokens, last);
    var runs := Runs(tokens, first);
    assert runs == [Run(first, last)] + rest;
    assert runs[1..] == rest;
  }

  // ------------------------------------------------------------ surface forms

  /** The token texts joined by single spaces. */
  function JoinTexts(tokens: seq<Token>): string
  {
    if tokens == [] then ""
    else if |tokens| == 1 then tokens[0].text
    else JoinTexts(tokens[..|tokens| - 1]) + " " + tokens[|tokens| - 1].text
  }

  /** `getSurfaceForm` as written: the document text from the first token's
      begin offset to one past the last token's end offset; when that range
      is not inside the text, the token texts joined by spaces. */
  function SurfaceFormAsWritten(text: string, tokens: seq<Token>): string
    requires tokens != []
  {
    var b := tokens[0].begin;
    var e := tokens[|tokens| - 1].end + 1;
    if b <= e <= |text| then text[b..e] else JoinTexts(tokens)
  }

  /** The mention's own characters: `endPosition` is already exclusive. */
  function SurfaceForm(text: string, tokens: seq<Token>): (r: string)
    requires tokens != []
    ensures var b := tokens[0].begin; var e := tokens[|tokens| - 1].end;
            if b <= e <= |text| then r == text[b..e] else r == JoinTexts(tokens)
  {
    var b := tokens[0].begin;
    var e := tokens[|tokens| - 1].end;
    if b <= e <= |text| then text[b..e] else JoinTexts(tokens)
  }

  /** In "Obama spoke" the mention "Obama" (offsets 0 to 5) is read as
      "Obama " with the space after it, and a mention ending the text falls
      back to its joined token texts. */
  lemma SurfaceFormOffByOne()
    ensures SurfaceFormAsWritten("Obama spoke", [Token("Obama", "PERSON", 0, 5)]) == "Obama "
    ensures SurfaceForm("Obama spoke", [Token("Obama", "PERSON", 0, 5)]) == "Obama"
    ensures SurfaceFormAsWritten("Barack Obama", [Token("Barack", "PERSON", 0, 6), Token("Obama", "PERSON", 7, 12)]) == "Barack Obama"
    ensures SurfaceForm("Barack Obama", [Token("Barack", "PERSON", 0, 6), Token("Obama", "PERSON", 7, 12)]) == "Barack Obama"
  {
    assert "Obama spoke"[0..6] == "Obama ";
    assert "Obama spoke"[0..5] == "Obama";
    assert "Barack Obama"[0..12] == "Barack Obama";
    var ts := [Token("Barack", "PERSON", 0, 6), Token("Obama", "PERSON", 7, 12)];
    assert ts[..1] == [ts[0]];
    assert JoinTexts(ts) == "Barack" + " " + "Obama";
  }

  /** When the text holds the mention, its surface form is the text between
      the offsets, whatever the token texts say. */
  lemma SurfaceFormIsText(text: string, tokens: seq<Token>)
    requires tokens != [] && tokens[0].begin <= tokens[|tokens| - 1].end <= |text|
    ensures SurfaceForm(text, tokens) == text[tokens[0].begin..tokens[|tokens| - 1].end]
    ensures |SurfaceForm(text, tokens)| == tokens[|tokens| - 1].end - tokens[0].begin
  {
  }

  /** The tokens of a mention. */
  function MentionTokens(doc: Document, m: Mention): seq<Token>
    requires m.sentence < |doc.sentences| && m.first <= m.last <= |doc.sentences[m.sentence]|
  {
    doc.sentences[m.sentence][m.first..m.last]
  }

  /** The positions of a mention's tokens. */
  function Positions(m: Mention): seq<Pos>
    requires m.first <= m.last
  {
    seq(m.last - m.first, i requires 0 <= i => Pos(m.sentence, m.first + i))
  }

  /** A mention of the document: a non-empty stretch of one sentence. */
  ghost predicate InDocument(doc: Document, m: Mention)
  {
    m.sentence < |doc.sentences| && m.first < m.last <= |doc.sentences[m.sentence]|
  }

  ghost predicate AllInDocument(doc: Document, mentions: seq<Mention>)
  {
    forall i :: 0 <= i < |mentions| ==> InDocument(doc, mentions[i])
  }

  lemma {:induction false} MentionsInDocument(doc: Document, s: nat)
    requires s <= |doc.sentences|
    ensures AllInDocument(doc, MentionsFrom(doc.sentences, s))
    decreases |doc.sentences| - s
  {
    if s < |doc.sentences| {
      MentionsInDocument(doc, s + 1);
      var tokens := doc.sentences[s];
      RunsPartition(tokens, 0);
      var here := MentionsOfRuns(tokens, s, Runs(tokens, 0));
      forall i | 0 <= i < |here|
        ensures InDocument(doc, here[i])
      {
        MentionsAreRuns(tokens, s, Runs(tokens, 0), here[i]);
      }
      var rest := MentionsFrom(doc.sentences, s + 1);
      assert forall i :: |here| <= i < |here| + |rest| ==> (here + rest)[i] == rest[i - |here|];
    }
  }

  // ------------------------------------------------------------ grouping

  /** Which surface form keys the queries: `getSurfaceForm` as written, or
      the mention's exact text. */
  datatype Reading = AsWritten | Exact

  /** The query text of a mention under a reading. */
  function Query(doc: Document, m: Mention, reading: Reading): string
    requires InDocument(doc, m)
  {
    match reading
    case AsWritten => SurfaceFormAsWritten(doc.text, MentionTokens(doc, m))
    case Exact => SurfaceForm(doc.text, MentionTokens(doc, m))
  }

  /** `query2labels` after the mentions: each query text maps to the
      positions of its mentions' tokens, in mention order. */
  ghost function Groups(doc: Document, mentions: seq<Mention>, reading: Reading): map<string, seq<Pos>>
    requires AllInDocument(doc, mentions)
  {
    if mentions == [] then map[]
    else
      var init := mentions[..|mentions| - 1];
      var m := mentions[|mentions| - 1];
      var g := Groups(doc, init, reading);
      var text := Query(doc, m, reading);
      g[text := (if text in g then g[text] else []) + Positions(m)]
  }

  /** The positions of the mentions whose query text is `q`, in order. */
  ghost function PositionsWithText(doc: Document, mentions: seq<Mention>, reading: Reading, q: string): seq<Pos>
    requires AllInDocument(doc, mentions)
  {
    if mentions == [] then []
    else
      var init := mentions[..|mentions| - 1];
      var m := mentions[|mentions| - 1];
      PositionsWithText(doc, init, reading, q) + (if Query(doc, m, reading) == q then Positions(m) else [])
  }

  /** The query texts of the mentions, in mention order. */
  ghost function Queries(doc: Document, mentions: seq<Mention>, reading: Reading): (qs: seq<string>)
    requires AllInDocument(doc, mentions)
    ensures |qs| == |mentions|
    ensures forall i :: 0 <= i < |mentions| ==> qs[i] == Query(doc, mentions[i], reading)
  {
    seq(|mentions|, i requires 0 <= i < |mentions| => Query(doc, mentions[i], reading))
  }

  /** The queries are exactly the query texts of the mentions. */
  lemma GroupsKeys(doc: Document, mentions: seq<Mention>, reading: Reading, q: string)
    requires AllInDocument(doc, mentions)
    ensures q in Groups(doc, mentions, reading) <==>
              exists i :: 0 <= i < |mentions| && Query(doc, mentions[i], reading) == q
  {
    GroupsKeySet(doc, mentions, reading);
    var qs := Queries(doc, mentions, reading);
    if q in qs {
      var i :| 0 <= i < |qs| && qs[i] == q;
      assert Query(doc, mentions[i], reading) == q;
    }
  }

  lemma {:induction false} GroupsKeySet(doc: Document, mentions: seq<Mention>, reading: Reading)
    requires AllInDocument(doc, mentions)
    ensures forall q :: q in Groups(doc, mentions, reading) <==> q in Queries(doc, mentions, reading)
  {
    if mentions != [] {
      var n := |mentions| - 1;
      var init := mentions[..n];
      assert forall i :: 0 <= i < |init| ==> init[i] == mentions[i];
      GroupsKeySet(doc, init, reading);
      QueriesLast(doc, mentions, reading);
    }
  }

  lemma QueriesLast(doc: Document, mentions: seq<Mention>, reading: Reading)
    requires AllInDocument(doc, mentions) && mentions != []
    ensures Queries(doc, mentions, reading)
            == Queries(doc, mentions[..|mentions| - 1], reading) + [Query(doc, mentions[|mentions| - 1], reading)]
  {
    var n := |mentions| - 1;
    var init := mentions[..n];
    assert forall i :: 0 <= i < |init| ==> init[i] == mentions[i];
  }

  /** Mentions with the same query text share one query, whose tokens are
      theirs concatenated in mention order. */
  lemma {:induction false} GroupsValues(doc: Document, mentions: seq<Mention>, reading: Reading, q: string)
    requires AllInDocument(doc, mentions)
    ensures (if q in Groups(doc, mentions, reading) then Groups(doc, mentions, reading)[q] else [])
              == PositionsWithText(doc, mentions, reading, q)
  {
    if mentions != [] {
      var init := mentions[..|mentions| - 1];
      assert forall i :: 0 <= i < |init| ==> init[i] == mentions[i];
      GroupsValues(doc, init, reading, q);
    }
  }

  lemma {:induction false} PositionsWithTextEmpty(doc: Document, mentions: seq<Mention>, reading: Reading, q: string)
    requires AllInDocument(doc, mentions)
    requires forall i :: 0 <= i < |mentions| ==> Query(doc, mentions[i], reading) != q
    ensures PositionsWithText(doc, mentions, reading, q) == []
  {
    if mentions != [] {
      var init := mentions[..|mentions| - 1];
      assert forall i :: 0 <= i < |init| ==> init[i] == mentions[i];
      PositionsWithTextEmpty(doc, init, reading, q);
    }
  }

  /** The mentions read `qa` as written are exactly those read `qe` exactly. */
  ghost predicate SameMentions(doc: Document, mentions: seq<Mention>, qa: string, qe: string)
    requires AllInDocument(doc, mentions)
  {
    forall i :: 0 <= i < |mentions| ==> (Query(doc, mentions[i], AsWritten) == qa <==> Query(doc, mentions[i], Exact) == qe)
  }

  lemma {:induction false} PositionsAgree(doc: Document, mentions: seq<Mention>, qa: string, qe: string)
    requires AllInDocument(doc, mentions) && SameMentions(doc, mentions, qa, qe)
    ensures PositionsWithText(doc, mentions, AsWritten, qa) == PositionsWithText(doc, mentions, Exact, qe)
  {
    if mentions != [] {
      var init := mentions[..|mentions| - 1];
      assert forall i :: 0 <= i < |init| ==> init[i] == mentions[i];
      PositionsAgree(doc, init, qa, qe);
    }
  }

  /** The two readings group alike wherever they split the mentions alike:
      when the mentions read `qa` as written are exactly those read `qe`
      exactly, `qa` is a query of the one grouping iff `qe` is of the other,
      and both hold the same tokens. */
  lemma GroupingsAgree(doc: Document, mentions: seq<Mention>, qa: string, qe: string)
    requires AllInDocument(doc, mentions) && SameMentions(doc, mentions, qa, qe)
    ensures qa in Groups(doc, mentions, AsWritten) <==> qe in Groups(doc, mentions, Exact)
    ensures qa in Groups(doc, mentions, AsWritten) ==>
              Groups(doc, mentions, AsWritten)[qa] == Groups(doc, mentions, Exact)[qe]
  {
    GroupsKeys(doc, mentions, AsWritten, qa);
    GroupsKeys(doc, mentions, Exact, qe);
    GroupsValues(doc, mentions, AsWritten, qa);
    GroupsValues(doc, mentions, Exact, qe);
    PositionsAgree(doc, mentions, qa, qe);
  }

  /** "Obama spoke. Obama." with a PERSON token at [0, 5) and one at
      [13, 18). */
  const ObamaDoc := Document("Obama spoke. Obama.",
                             [[Token("Obama", "PERSON", 0, 5), Token("spoke", "O", 6, 11), Token(".", "O", 11, 12)],
                              [Token("Obama", "PERSON", 13, 18), Token(".", "O", 18, 19)]])
  const ObamaMentions := [Mention(0, 0, 1), Mention(1, 0, 1)]

  /** As written the two mentions of `ObamaDoc` are the separate queries
      "Obama " and "Obama.", while read exactly they share the query "Obama". */
  lemma ObamaTwice()
    ensures AllInDocument(ObamaDoc, ObamaMentions)
    ensures Groups(ObamaDoc, ObamaMentions, AsWritten) == map["Obama " := [Pos(0, 0)], "Obama." := [Pos(1, 0)]]
    ensures Groups(ObamaDoc, ObamaMentions, Exact) == map["Obama" := [Pos(0, 0), Pos(1, 0)]]
  {
    ObamaQueries();
    var a, b := ObamaMentions[0], ObamaMentions[1];
    assert [a, b] == ObamaMentions;
    ObamaPositions(a, b);
    TwoApart(ObamaDoc, a, b, AsWritten);
    TwoTogether(ObamaDoc, a, b, Exact);
  }

  /** The positions of the two mentions, apart and together. */
  lemma ObamaPositions(a: Mention, b: Mention)
    requires [a, b] == ObamaMentions
    ensures Positions(a) == [Pos(0, 0)] && Positions(b) == [Pos(1, 0)]
    ensures Positions(a) + Positions(b) == [Pos(0, 0), Pos(1, 0)]
  {
    assert a == Mention(0, 0, 1) && b == Mention(1, 0, 1);
    assert Positions(a) == [Pos(0, 0)] && Positions(b) == [Pos(1, 0)];
    assert [Pos(0, 0)] + [Pos(1, 0)] == [Pos(0, 0), Pos(1, 0)];
  }

  /** Two mentions with different queries form two groups. */
  lemma TwoApart(doc: Document, a: Mention, b: Mention, reading: Reading)
    requires InDocument(doc, a) && InDocument(doc, b) && AllInDocument(doc, [a, b])
    requires Query(doc, a, reading) != Query(doc, b, reading)
    ensures Groups(doc, [a, b], reading) == map[Query(doc, a, reading) := Positions(a), Query(doc, b, reading) := Positions(b)]
  {
    GroupsOfTwo(doc, a, b, reading);
    assert [] + Positions(b) == Positions(b);
  }

  /** Two mentions with the same query form one group, in mention order. */
  lemma TwoTogether(doc: Document, a: Mention, b: Mention, reading: Reading)
    requires InDocument(doc, a) && InDocument(doc, b) && AllInDocument(doc, [a, b])
    requires Query(doc, a, reading) == Query(doc, b, reading)
    ensures Groups(doc, [a, b], reading) == map[Query(doc, a, reading) := Positions(a) + Positions(b)]
  {
    GroupsOfTwo(doc, a, b, reading);
  }

  /** The grouping of two mentions. */
  lemma GroupsOfTwo(doc: Document, a: Mention, b: Mention, reading: Reading)
    requires InDocument(doc, a) && InDocument(doc, b) && AllInDocument(doc, [a, b])
    ensures var qa, qb := Query(doc, a, reading), Query(doc, b, reading);
            Groups(doc, [a, b], reading) == map[qa := Positions(a)][qb := (if qb == qa then Positions(a) else []) + Positions(b)]
  {
    var qa := Query(doc, a, reading);
    assert [a][..0] == [];
    assert [] + Positions(a) == Positions(a);
    assert Groups(doc, [a], reading) == map[qa := Positions(a)];
    assert [a, b][..1] == [a];
  }

  /** The queries of the two mentions in either reading. */
  lemma ObamaQueries()
    ensures AllInDocument(ObamaDoc, ObamaMentions)
    ensures Query(ObamaDoc, ObamaMentions[0], AsWritten) == "Obama "
    ensures Query(ObamaDoc, ObamaMentions[1], AsWritten) == "Obama."
    ensures Query(ObamaDoc, ObamaMentions[0], Exact) == "Obama" == Query(ObamaDoc, ObamaMentions[1], Exact)
  {
    var doc := ObamaDoc;
    var mentions := ObamaMentions;
    assert AllInDocument(doc, mentions);
    assert doc.text[0..6] == "Obama " && doc.text[13..19] == "Obama.";
    assert doc.text[0..5] == "Obama" && doc.text[13..18] == "Obama";
    assert MentionTokens(doc, mentions[0]) == [Token("Obama", "PERSON", 0, 5)];
    assert MentionTokens(doc, mentions[1]) == [Token("Obama", "PERSON", 13, 18)];
  }

  /** The first loop of `annotate`: group the mentions by `getSurfaceForm`,
      as written. */
  method GroupMentions(doc: Document, mentions: seq<Mention>) returns (query2labels: map<string, seq<Pos>>)
    requires AllInDocument(doc, mentions)
    ensures query2labels == Groups(doc, mentions, AsWritten)
  {
    query2labels := map[];
    var i := 0;
    while i < |mentions|
      invariant 0 <= i <= |mentions|
      invariant query2labels == Groups(doc, mentions[..i], AsWritten)
    {
      var m := mentions[i];
      assert mentions[..i + 1][..i] == mentions[..i] && mentions[..i + 1][i] == m;
      var text := SurfaceFormAsWritten(doc.text, MentionTokens(doc, m));
      if text in query2labels {
        query2labels := query2labels[text := query2labels[text] + Positions(m)];
      } else {
        query2labels := query2labels[text := [] + Positions(m)];
      }
      i := i + 1;
    }
    assert mentions[..i] == mentions;
  }

  // ------------------------------------------------------------ assigning ids

  /** The id given to a query's tokens: the top-ranked candidate, or "/NIL"
      when there is none. */
  function ChosenId(ranked: seq<string>): (id: string)
    ensures ranked == [] ==> id == Nil
    ensures ranked != [] ==> id == ranked[0]
  {
    if ranked == [] then Nil else ranked[0]
  }

  /** The second loop of `annotate`: queries without a search result are
      skipped; every token of any other query receives its chosen id. */
  method AssignIds(query2labels: map<string, seq<Pos>>, results: map<string, seq<string>>,
                   rank: seq<string> -> seq<string>)
    returns (ids: map<Pos, string>)
    ensures forall p :: p in ids ==> exists q :: q in query2labels && q in results && p in query2labels[q]
                                             && ids[p] == ChosenId(rank(results[q]))
    ensures forall q, p :: q in query2labels && q in results && p in query2labels[q] ==> p in ids
    ensures forall p :: (forall q :: q in query2labels ==> p !in query2labels[q] || q !in results) ==> p !in ids
  {
    ids := map[];
    var todo := query2labels.Keys;
    while todo != {}
      invariant todo <= query2labels.Keys
      invariant forall p :: p in ids ==> exists q :: q in query2labels && q in results && p in query2labels[q]
                                               && ids[p] == ChosenId(rank(results[q]))
      invariant forall q, p :: q in query2labels - todo && q in results && p in query2labels[q] ==> p in ids
      invariant forall p :: (forall q :: q in query2labels ==> p !in query2labels[q] || q !in results) ==> p !in ids
    {
      var query :| query in todo;
      todo := todo - {query};
      if query !in results {
        continue;
      }
      var id := ChosenId(rank(results[query]));
      var tokens := query2labels[query];
      var k := 0;
      while k < |tokens|
        invariant 0 <= k <= |tokens|
        invariant forall p :: p in ids ==> exists q :: q in query2labels && q in results && p in query2labels[q]
                                                 && ids[p] == ChosenId(rank(results[q]))
        invariant forall q, p :: q in query2labels - todo - {query} && q in results && p in query2labels[q] ==> p in ids
        invariant forall j :: 0 <= j < k ==> tokens[j] in ids
        invariant forall p :: (forall q :: q in query2labels ==> p !in query2labels[q] || q !in results) ==> p !in ids
      {
        ids := ids[tokens[k] := id];
        k := k + 1;
      }
    }
  }

  /** `annotate`: the ids given to the document's tokens, with `batch` the
      generator's `batchFindCandidates` and `rank` the ranker. */
  method Annotate(doc: Document, batch: set<string> -> map<string, seq<string>>, rank: seq<string> -> seq<string>)
    returns (ids: map<Pos, string>)
    ensures var mentions := MentionsFrom(doc.sentences, 0);
            AllInDocument(doc, mentions) &&
            var groups := Groups(doc, mentions, AsWritten);
            var results := batch(groups.Keys);
            && (forall p :: p in ids ==> exists q :: q in groups && q in results && p in groups[q]
                                                 && ids[p] == ChosenId(rank(results[q])))
            && (forall q, p :: q in groups && q in results && p in groups[q] ==> p in ids)
  {
    var mentions := FindMentions(doc);
    MentionsInDocument(doc, 0);
    var query2labels := GroupMentions(doc, mentions);
    var results := batch(query2labels.Keys);
    ids := AssignIds(query2labels, results, rank);
  }
}
