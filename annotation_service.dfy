// `AnnotationService.link`: decide which pipeline steps a document still
// needs from the annotations it already carries, then run those steps in
// the fixed order tokenize, ssplit, pos, ner, el.
module AnnotationService {
  import opened Wrappers

  /** Which annotations a token of a sentence already carries. */
  datatype TokenInfo = TokenInfo(hasEntityId: bool, hasNer: bool, hasPos: bool)

  /** What a document carries: its sentences (each a list of tokens) when
      it has been split, whether it has document-level tokens, and whether
      it has its text. */
  datatype Document = Document(sentences: Option<seq<seq<TokenInfo>>>, hasTokens: bool, hasText: bool)

  datatype Step = Tokenize | Ssplit | Pos | Ner | El

  /** The five "required" flags of `link`. */
  datatype Plan = Plan(tokenize: bool, split: bool, pos: bool, ner: bool, nel: bool)

  /** Splitting is needed but there are neither tokens nor text. */
  datatype PlanError = MissingText

  /** The tokens of all sentences, in order. */
  function AllTokens(sentences: seq<seq<TokenInfo>>): seq<TokenInfo>
  {
    if sentences == [] then [] else AllTokens(sentences[..|sentences| - 1]) + sentences[|sentences| - 1]
  }

  predicate AnyEntityId(ts: seq<TokenInfo>)
  {
    exists k :: 0 <= k < |ts| && ts[k].hasEntityId
  }

  predicate AnyNer(ts: seq<TokenInfo>)
  {
    exists k :: 0 <= k < |ts| && ts[k].hasNer
  }

  predicate AnyPos(ts: seq<TokenInfo>)
  {
    exists k :: 0 <= k < |ts| && ts[k].hasPos
  }

  /** The flags `link` computes for `doc`, or the error it throws. */
  function PlanFor(doc: Document): Result<Plan, PlanError>
  {
    var split := doc.sentences.None?;
    var ts := if doc.sentences.Some? then AllTokens(doc.sentences.value) else [];
    var nel := split || (ts != [] && !AnyEntityId(ts));
    var ner := split || (nel && !AnyNer(ts));
    var pos := split || (ner && !AnyPos(ts));
    if split && !doc.hasTokens then
      if !doc.hasText then Err(MissingText) else Ok(Plan(true, split, pos, ner, nel))
    else Ok(Plan(false, split, pos, ner, nel))
  }

  /** The annotators added to the pipeline, in the order they run. */
  function Steps(p: Plan): seq<Step>
  {
    (if p.tokenize then [Tokenize] else [])
    + (if p.split then [Ssplit] else [])
    + (if p.pos then [Pos] else [])
    + (if p.ner then [Ner] else [])
    + (if p.nel then [El] else [])
  }

  function Rank(s: Step): nat
  {
    match s
    case Tokenize => 0
    case Ssplit => 1
    case Pos => 2
    case Ner => 3
    case El => 4
  }

  function Flag(p: Plan, s: Step): bool
  {
    match s
    case Tokenize => p.tokenize
    case Ssplit => p.split
    case Pos => p.pos
    case Ner => p.ner
    case El => p.nel
  }

  // ------------------------------------------------------------ properties

  /** An unsplit document needs ssplit, pos, ner and el. */
  lemma NoSentencesNeedsAll(doc: Document)
    requires doc.sentences.None?
    requires doc.hasTokens || doc.hasText
    ensures PlanFor(doc).Ok?
    ensures var p := PlanFor(doc).value; p.split && p.pos && p.ner && p.nel
  {
  }

  /** With non-empty sentences: el iff no token has an entity id; ner iff el
      and no token has an entity type; pos iff ner and no token has a
      part-of-speech tag. Nothing is split or tokenized again. */
  lemma SentencesDecideSteps(doc: Document)
    requires doc.sentences.Some? && AllTokens(doc.sentences.value) != []
    ensures PlanFor(doc).Ok?
    ensures var p := PlanFor(doc).value; var ts := AllTokens(doc.sentences.value);
            && !p.split && !p.tokenize
            && (p.nel <==> !AnyEntityId(ts))
            && (p.ner <==> p.nel && !AnyNer(ts))
            && (p.pos <==> p.ner && !AnyPos(ts))
  {
  }

  /** Sentences without tokens need nothing at all. */
  lemma EmptySentencesNeedNothing(doc: Document)
    requires doc.sentences.Some? && AllTokens(doc.sentences.value) == []
    ensures PlanFor(doc) == Ok(Plan(false, false, false, false, false))
    ensures Steps(PlanFor(doc).value) == []
  {
  }

  /** Tokenizing is needed iff splitting is and there are no document
      tokens; then a document without text is refused. */
  lemma TokenizeRule(doc: Document)
    ensures PlanFor(doc).Err? <==> doc.sentences.None? && !doc.hasTokens && !doc.hasText
    ensures PlanFor(doc).Ok? ==> (PlanFor(doc).value.tokenize <==> PlanFor(doc).value.split && !doc.hasTokens)
  {
  }

  /** Each step depends on the later ones: pos only with ner, ner only with
      el, tokenize only with ssplit. */
  lemma PlanIsChained(doc: Document)
    requires PlanFor(doc).Ok?
    ensures var p := PlanFor(doc).value; (p.pos ==> p.ner) && (p.ner ==> p.nel) && (p.tokenize ==> p.split)
  {
  }

  /** A document some token of which is already linked needs no step. */
  lemma LinkedDocumentNeedsNothing(doc: Document)
    requires doc.sentences.Some? && AnyEntityId(AllTokens(doc.sentences.value))
    ensures PlanFor(doc) == Ok(Plan(false, false, false, false, false))
  {
  }

  /** The pipeline holds exactly the required steps, each once, in the order
      tokenize, ssplit, pos, ner, el. */
  lemma StepsInOrder(p: Plan)
    ensures forall s :: s in Steps(p) <==> Flag(p, s)
    ensures forall i, j :: 0 <= i < j < |Steps(p)| ==> Rank(Steps(p)[i]) < Rank(Steps(p)[j])
  {
    var a := if p.tokenize then [Tokenize] else [];
    var b := if p.split then [Ssplit] else [];
    var c := if p.pos then [Pos] else [];
    var d := if p.ner then [Ner] else [];
    var e := if p.nel then [El] else [];
    var steps := Steps(p);
    assert steps == a + b + c + d + e;
    forall s
      ensures s in steps <==> Flag(p, s)
    {
      StepMember(a, b, c, d, e, s);
    }
    AppendRanked(a, b, 1);
    AppendRanked(a + b, c, 2);
    AppendRanked(a + b + c, d, 3);
    AppendRanked(a + b + c + d, e, 4);
  }

  lemma StepMember(a: seq<Step>, b: seq<Step>, c: seq<Step>, d: seq<Step>, e: seq<Step>, s: Step)
    ensures s in a + b + c + d + e <==> s in a || s in b || s in c || s in d || s in e
  {
  }

  predicate RankSorted(s: seq<Step>)
  {
    forall i, j :: 0 <= i < j < |s| ==> Rank(s[i]) < Rank(s[j])
  }

  /** Steps ranked below `bound` followed by steps ranked at or above it
      stay in rank order. */
  lemma AppendRanked(xs: seq<Step>, ys: seq<Step>, bound: nat)
    requires |xs| <= 1 || RankSorted(xs)
    requires |ys| <= 1
    requires forall x :: x in xs ==> Rank(x) < bound
    requires forall y :: y in ys ==> Rank(y) >= bound
    ensures RankSorted(xs + ys)
  {
    var s := xs + ys;
    forall i, j | 0 <= i < j < |s|
      ensures Rank(s[i]) < Rank(s[j])
    {
      if j < |xs| {
        assert s[i] == xs[i] && s[j] == xs[j];
      } else {
        assert s[i] in xs && s[j] in ys;
      }
    }
  }

  // ------------------------------------------------------------ the method

  /** The scan over every token of every sentence. */
  method ScanTokens(sentences: seq<seq<TokenInfo>>) returns (empty: bool, containsNel: bool, containsNer: bool, containsPos: bool)
    ensures empty <==> AllTokens(sentences) == []
    ensures containsNel <==> AnyEntityId(AllTokens(sentences))
    ensures containsNer <==> AnyNer(AllTokens(sentences))
    ensures containsPos <==> AnyPos(AllTokens(sentences))
  {
    empty, containsNel, containsNer, containsPos := true, false, false, false;
    ghost var seen: seq<TokenInfo> := [];
    var i := 0;
    while i < |sentences|
      invariant 0 <= i <= |sentences|
      invariant seen == AllTokens(sentences[..i])
      invariant empty <==> seen == []
      invariant containsNel <==> AnyEntityId(seen)
      invariant containsNer <==> AnyNer(seen)
      invariant containsPos <==> AnyPos(seen)
    {
      var tokens := sentences[i];
      var j := 0;
      while j < |tokens|
        invariant 0 <= j <= |tokens|
        invariant seen == AllTokens(sentences[..i]) + tokens[..j]
        invariant empty <==> seen == []
        invariant containsNel <==> AnyEntityId(seen)
        invariant containsNer <==> AnyNer(seen)
        invariant containsPos <==> AnyPos(seen)
      {
        var t := tokens[j];
        ghost var next := seen + [t];
        assert forall k :: 0 <= k < |seen| ==> next[k] == seen[k];
        assert next[|seen|] == t;
        containsNel := containsNel || t.hasEntityId;
        containsNer := containsNer || t.hasNer;
        containsPos := containsPos || t.hasPos;
        empty := false;
        assert tokens[..j + 1] == tokens[..j] + [t];
        seen := next;
        j := j + 1;
      }
      assert sentences[..i + 1][..i] == sentences[..i] && tokens[..j] == tokens;
      assert AllTokens(sentences[..i + 1]) == AllTokens(sentences[..i]) + sentences[i];
      i := i + 1;
    }
    assert sentences[..i] == sentences;
  }

  /** `link`'s planning: scan the sentences when there are any, derive the
      flags, and list the annotators to add in order; a document that needs
      tokenizing but has no text is refused. */
  method Link(doc: Document) returns (r: Result<seq<Step>, PlanError>)
    ensures PlanFor(doc).Err? ==> r == Err(PlanFor(doc).error)
    ensures PlanFor(doc).Ok? ==> r == Ok(Steps(PlanFor(doc).value))
  {
    var tokenizeRequired, splitRequired, posRequired, nerRequired, nelRequired: bool;
    if doc.sentences.Some? {
      var empty, containsNel, containsNer, containsPos := ScanTokens(doc.sentences.value);
      if empty {
        posRequired, nerRequired, nelRequired := false, false, false;
      } else {
        nelRequired := !containsNel;
        nerRequired := nelRequired && !containsNer;
        posRequired := nerRequired && !containsPos;
      }
      splitRequired := false;
    } else {
      splitRequired, posRequired, nerRequired, nelRequired := true, true, true, true;
    }
    if splitRequired && !doc.hasTokens {
      if !doc.hasText {
        return Err(MissingText);
      }
      tokenizeRequired := true;
    } else {
      tokenizeRequired := false;
    }
    ghost var plan := Plan(tokenizeRequired, splitRequired, posRequired, nerRequired, nelRequired);
    assert PlanFor(doc) == Ok(plan);
    var pipeline: seq<Step> := [];
    if tokenizeRequired {
      pipeline := pipeline + [Tokenize];
    }
    assert pipeline == if tokenizeRequired then [Tokenize] else [];
    if splitRequired {
      pipeline := pipeline + [Ssplit];
    }
    if posRequired {
      pipeline := pipeline + [Pos];
    }
    if nerRequired {
      pipeline := pipeline + [Ner];
    }
    if nelRequired {
      pipeline := pipeline + [El];
    }
    assert pipeline == Steps(plan);
    r := Ok(pipeline);
  }
}
