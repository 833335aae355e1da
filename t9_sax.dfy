// `T9SaxHandler`: the SAX handler that reads the TAC 2009 knowledge base.
// It keeps a stack of element handlers, starting with the root handler;
// every event goes to the handler on top, an accepted start element pushes
// the handler for the new element and its end element pops it. Entities are
// passed on as they close, and closed entities and facts are counted.
module T9Sax {
  import opened Wrappers
  import Text

  /** The attributes of a start element: qualified name and value. */
  type Attributes = seq<(string, string)>

  /** `Attributes.getValue(qName)`: the value of the attribute with exactly
      that name, if there is one. */
  function Value(attrs: Attributes, qName: string): Option<string>
  {
    if attrs == [] then None else if attrs[0].0 == qName then Some(attrs[0].1) else Value(attrs[1..], qName)
  }

  datatype EntityType = PER | ORG | GPE | UKN

  function TypeName(t: EntityType): string
  {
    match t
    case PER => "PER"
    case ORG => "ORG"
    case GPE => "GPE"
    case UKN => "UKN"
  }

  /** `T9Entity.Type.valueOf`: the constant with exactly that name. */
  function TypeValueOf(s: string): (r: Option<EntityType>)
    ensures r.Some? ==> TypeName(r.value) == s
    ensures r.None? ==> forall t :: TypeName(t) != s
  {
    if s == "PER" then Some(PER)
    else if s == "ORG" then Some(ORG)
    else if s == "GPE" then Some(GPE)
    else if s == "UKN" then Some(UKN)
    else None
  }

  lemma TypeValueOfName(t: EntityType)
    ensures TypeValueOf(TypeName(t)) == Some(t)
  {
  }

  /** What a fact holds, in order: its character data and its links. */
  datatype FactPart = TextPart(text: string) | LinkPart(entityId: Option<string>, data: string)

  datatype Fact = Fact(name: string, parts: seq<FactPart>)

  /** A finished entity, as `T9Entity.Builder.build` makes it. */
  datatype Entity = Entity(factsClass: Option<string>, facts: seq<Fact>, wikiText: Option<string>,
                           id: string, name: string, entityType: EntityType, wikiTitle: Option<string>)

  /** An entity under construction; `id` and `name` may be missing. */
  datatype EntityDraft = EntityDraft(id: Option<string>, name: Option<string>, entityType: EntityType,
                                     wikiTitle: Option<string>, factsClass: Option<string>,
                                     wikiText: Option<string>, facts: seq<Fact>)

  /** The element handlers, each with the builder it works on. */
  datatype Handler =
    | RootHandler
    | KnowledgeBaseHandler
    | EntryHandler(draft: EntityDraft)
    | FactsHandler
    | FactHandler(factName: string, parts: seq<FactPart>)
    | LinkHandler(entityId: Option<string>, data: string)
    | WikiTextHandler(text: string)

  datatype SaxError =
    | UnexpectedQname(actual: string, expected: seq<string>)
    | MissingRequiredAttributes
    | UnhandledAttributes
    | UnexpectedElement(qName: string)
    | IllegalState
    | NullValue(field: string)
    | UnknownType(value: string)

  // ------------------------------------------------------------ nesting

  /** How deep a handler sits in the stack. */
  function Level(h: Handler): nat
  {
    match h
    case RootHandler => 0
    case KnowledgeBaseHandler => 1
    case EntryHandler(_) => 2
    case FactsHandler => 3
    case WikiTextHandler(_) => 3
    case FactHandler(_, _) => 4
    case LinkHandler(_, _) => 5
  }

  /** Which handler pushes which. */
  predicate ChildOf(parent: Handler, child: Handler)
  {
    match child
    case RootHandler => false
    case KnowledgeBaseHandler => parent.RootHandler?
    case EntryHandler(_) => parent.KnowledgeBaseHandler?
    case FactsHandler => parent.EntryHandler?
    case WikiTextHandler(_) => parent.EntryHandler?
    case FactHandler(_, _) => parent.FactsHandler?
    case LinkHandler(_, _) => parent.FactHandler?
  }

  /** The stack is a path from the root handler down the element tree. */
  predicate WellNested(states: seq<Handler>)
  {
    |states| >= 1 && states[0] == RootHandler
    && forall i :: 1 <= i < |states| ==> ChildOf(states[i - 1], states[i])
  }

  /** Each handler sits at its own level, so the stack has at most six. */
  lemma {:induction false} NestedLevels(states: seq<Handler>)
    requires WellNested(states)
    ensures forall i :: 0 <= i < |states| ==> Level(states[i]) == i
    ensures |states| <= 6
  {
    forall i | 0 <= i < |states|
      ensures Level(states[i]) == i
    {
      LevelAt(states, i);
    }
    LevelAt(states, |states| - 1);
  }

  lemma {:induction false} LevelAt(states: seq<Handler>, i: nat)
    requires WellNested(states) && i < |states|
    ensures Level(states[i]) == i
  {
    if i > 0 {
      LevelAt(states, i - 1);
      assert ChildOf(states[i - 1], states[i]);
    }
  }

  /** The element a handler was pushed for. */
  function ElementName(h: Handler): string
  {
    match h
    case RootHandler => ""
    case KnowledgeBaseHandler => "knowledge_base"
    case EntryHandler(_) => "entity"
    case FactsHandler => "facts"
    case FactHandler(_, _) => "fact"
    case LinkHandler(_, _) => "link"
    case WikiTextHandler(_) => "wiki_text"
  }

  // ------------------------------------------------------------ checks

  /** `actual` is one of `expected`, ignoring case. */
  predicate QnameIn(actual: string, expected: seq<string>)
  {
    exists i :: 0 <= i < |expected| && Text.EqualsIgnoreCase(actual, expected[i])
  }

  /** `checkQname`: the expected names are tried in order. */
  function CheckQname(actual: string, expected: seq<string>): (r: Outcome<SaxError>)
    ensures r.Pass? <==> QnameIn(actual, expected)
    ensures r.Fail? ==> r.error == UnexpectedQname(actual, expected)
  {
    if Matches(actual, expected, 0) then Pass else Fail(UnexpectedQname(actual, expected))
  }

  /** The search loop of `checkQname`, from index `i`. */
  function Matches(actual: string, expected: seq<string>, i: nat): (b: bool)
    requires i <= |expected|
    ensures b <==> exists j :: i <= j < |expected| && Text.EqualsIgnoreCase(actual, expected[j])
    decreases |expected| - i
  {
    if i == |expected| then false
    else Text.EqualsIgnoreCase(actual, expected[i]) || Matches(actual, expected, i + 1)
  }

  lemma QnameOne(actual: string, expected: string)
    ensures QnameIn(actual, [expected]) <==> Text.EqualsIgnoreCase(actual, expected)
  {
    if Text.EqualsIgnoreCase(actual, expected) {
      assert [expected][0] == expected;
    }
  }

  /** The attribute names, lower-cased. */
  function ActualNames(attrs: Attributes): set<string>
  {
    set i | 0 <= i < |attrs| :: Text.Lower(attrs[i].0)
  }

  function LowerAll(names: set<string>): set<string>
  {
    set n | n in names :: Text.Lower(n)
  }

  lemma IntersectionCard(a: set<string>, b: set<string>)
    ensures |a * b| <= |b|
    ensures |a * b| < |b| <==> !(b <= a)
  {
    assert b == (a * b) + (b - a);
    assert (a * b) * (b - a) == {};
    if !(b <= a) {
      var x :| x in b && x !in a;
      assert x in b - a;
    }
  }

  lemma SubsetCard(a: set<string>, b: set<string>)
    requires a <= b
    ensures |a| <= |b|
  {
    assert b == a + (b - a);
    assert a * (b - a) == {};
  }

  /** `checkAttributes` as written: all required names must be present
      (ignoring case), and there may be no more names than required and
      optional ones together. */
  function CheckAttributesAsWritten(attrs: Attributes, required: set<string>, optional: set<string>): (r: Outcome<SaxError>)
    ensures r == Fail(MissingRequiredAttributes) <==> !(LowerAll(required) <= ActualNames(attrs))
    ensures r == Fail(UnhandledAttributes) <==>
              LowerAll(required) <= ActualNames(attrs) && |LowerAll(optional) + LowerAll(required)| < |ActualNames(attrs)|
    ensures r.Pass? || r == Fail(MissingRequiredAttributes) || r == Fail(UnhandledAttributes)
  {
    if |attrs| == 0 && required == {} && optional == {} then Pass
    else
      var actual := ActualNames(attrs);
      var expected := LowerAll(required);
      var allowed := LowerAll(optional) + expected;
      IntersectionCard(actual, expected);
      if |actual * expected| < |expected| then Fail(MissingRequiredAttributes)
      else if |allowed| < |actual| then Fail(UnhandledAttributes)
      else Pass
  }

  /** `checkAttributes` as its message intends: every name must be a
      required or an optional one. */
  function CheckAttributes(attrs: Attributes, required: set<string>, optional: set<string>): (r: Outcome<SaxError>)
    ensures r == Fail(MissingRequiredAttributes) <==> !(LowerAll(required) <= ActualNames(attrs))
    ensures r == Fail(UnhandledAttributes) <==>
              LowerAll(required) <= ActualNames(attrs) && !(ActualNames(attrs) <= LowerAll(optional) + LowerAll(required))
    ensures r.Pass? || r == Fail(MissingRequiredAttributes) || r == Fail(UnhandledAttributes)
  {
    var actual := ActualNames(attrs);
    var expected := LowerAll(required);
    if !(expected <= actual) then Fail(MissingRequiredAttributes)
    else if !(actual <= LowerAll(optional) + expected) then Fail(UnhandledAttributes)
    else Pass
  }

  /** Whatever the size check refuses as unhandled, the intended check
      refuses too. */
  lemma SizeCheckWeaker(attrs: Attributes, required: set<string>, optional: set<string>)
    ensures CheckAttributesAsWritten(attrs, required, optional) == Fail(UnhandledAttributes)
            ==> CheckAttributes(attrs, required, optional) == Fail(UnhandledAttributes)
  {
    var actual := ActualNames(attrs);
    var allowed := LowerAll(optional) + LowerAll(required);
    if actual <= allowed {
      SubsetCard(actual, allowed);
    }
  }

  // ------------------------------------------------------------ entities

  /** The entity a knowledge-base `entity` element opens, as the code is
      written: `setWikiTitle` wraps the title with `Optional.of`, which
      refuses the null an absent `wiki_title` gives. */
  function OpenEntityAsWritten(attrs: Attributes): (r: Result<EntityDraft, SaxError>)
    ensures r.Ok? <==> Value(attrs, "type").Some? && TypeValueOf(Value(attrs, "type").value).Some?
                       && Value(attrs, "wiki_title").Some?
    ensures r.Ok? ==> r == OpenEntity(attrs)
  {
    var t := Value(attrs, "type");
    if t.None? then Err(NullValue("type"))
    else if TypeValueOf(t.value).None? then Err(UnknownType(t.value))
    else if Value(attrs, "wiki_title").None? then Err(NullValue("wiki_title"))
    else Ok(EntityDraft(Value(attrs, "id"), Value(attrs, "name"), TypeValueOf(t.value).value,
                        Value(attrs, "wiki_title"), None, None, []))
  }

  /** The entity an `entity` element opens, with an absent `wiki_title`
      kept absent, as the optional attribute and the optional field mean. */
  function OpenEntity(attrs: Attributes): (r: Result<EntityDraft, SaxError>)
    ensures r.Ok? <==> Value(attrs, "type").Some? && TypeValueOf(Value(attrs, "type").value).Some?
    ensures r.Ok? ==> r.value.wikiTitle == Value(attrs, "wiki_title") && r.value.facts == []
                      && r.value.id == Value(attrs, "id") && r.value.name == Value(attrs, "name")
                      && TypeName(r.value.entityType) == Value(attrs, "type").value
  {
    var t := Value(attrs, "type");
    if t.None? then Err(NullValue("type"))
    else if TypeValueOf(t.value).None? then Err(UnknownType(t.value))
    else Ok(EntityDraft(Value(attrs, "id"), Value(attrs, "name"), TypeValueOf(t.value).value,
                        Value(attrs, "wiki_title"), None, None, []))
  }

  /** The two differ exactly on a valid entity without `wiki_title`. */
  lemma WikiTitleDifference(attrs: Attributes)
    ensures OpenEntityAsWritten(attrs) != OpenEntity(attrs)
            <==> OpenEntity(attrs).Ok? && Value(attrs, "wiki_title").None?
    ensures OpenEntityAsWritten(attrs).Ok? ==> OpenEntityAsWritten(attrs) == OpenEntity(attrs)
  {
  }

  /** `T9Entity.Builder.build`: the constructor refuses a missing id, then a
      missing name. */
  function Build(d: EntityDraft): (r: Result<Entity, SaxError>)
    ensures r.Ok? <==> d.id.Some? && d.name.Some?
    ensures d.id.None? ==> r == Err(NullValue("id"))
    ensures r.Ok? ==> r.value == Entity(d.factsClass, d.facts, d.wikiText, d.id.value, d.name.value, d.entityType, d.wikiTitle)
  {
    if d.id.None? then Err(NullValue("id"))
    else if d.name.None? then Err(NullValue("name"))
    else Ok(Entity(d.factsClass, d.facts, d.wikiText, d.id.value, d.name.value, d.entityType, d.wikiTitle))
  }

  // ------------------------------------------------------------ events

  function Guard<T>(o: Outcome<SaxError>, r: Result<T, SaxError>): Result<T, SaxError>
  {
    if o.Fail? then Err(o.error) else r
  }

  /** Which checks a start element gets: the code's (the size-only
      attribute check and `Optional.of` on the title) or the intended ones. */
  datatype Reading = AsWritten | Intended

  function AttributeCheck(reading: Reading, attrs: Attributes, required: set<string>, optional: set<string>): Outcome<SaxError>
  {
    match reading
    case AsWritten => CheckAttributesAsWritten(attrs, required, optional)
    case Intended => CheckAttributes(attrs, required, optional)
  }

  function EntityOpening(reading: Reading, attrs: Attributes): Result<EntityDraft, SaxError>
  {
    match reading
    case AsWritten => OpenEntityAsWritten(attrs)
    case Intended => OpenEntity(attrs)
  }

  /** `startElement` of the handler on top: the handler it leaves on top
      (the entry handler records the facts class) and the handler it
      pushes, or the exception it throws. */
  function StartOn(reading: Reading, top: Handler, qName: string, attrs: Attributes): Result<(Handler, Handler), SaxError>
  {
    match top
    case RootHandler =>
      Guard(CheckQname(qName, ["knowledge_base"]),
        Guard(AttributeCheck(reading, attrs, {}, {}), Ok((top, KnowledgeBaseHandler))))
    case KnowledgeBaseHandler =>
      Guard(CheckQname(qName, ["entity"]),
        Guard(AttributeCheck(reading, attrs, {"name", "id", "type"}, {"wiki_title"}),
          match EntityOpening(reading, attrs)
          case Err(e) => Err(e)
          case Ok(d) => Ok((top, EntryHandler(d)))))
    case EntryHandler(d) =>
      Guard(CheckQname(qName, ["facts", "wiki_text"]),
        if Text.Lower(qName) == "facts" then
          var factsClass := Value(attrs, "class");
          Ok((EntryHandler(if factsClass.Some? then d.(factsClass := factsClass) else d), FactsHandler))
        else Ok((top, WikiTextHandler(""))))
    case FactsHandler =>
      Guard(CheckQname(qName, ["fact"]),
        Guard(AttributeCheck(reading, attrs, {"name"}, {}),
          match Value(attrs, "name")
          case None => Err(NullValue("name"))
          case Some(n) => Ok((top, FactHandler(n, [])))))
    case FactHandler(_, _) =>
      Guard(CheckQname(qName, ["link"]),
        Guard(AttributeCheck(reading, attrs, {}, {"entity_id"}), Ok((top, LinkHandler(Value(attrs, "entity_id"), "")))))
    case LinkHandler(_, _) => Err(UnexpectedElement(qName))
    case WikiTextHandler(_) => Err(UnexpectedElement(qName))
  }

  /** A start element on the whole stack. */
  function Open(reading: Reading, states: seq<Handler>, qName: string, attrs: Attributes): Result<seq<Handler>, SaxError>
    requires |states| >= 1
  {
    match StartOn(reading, states[|states| - 1], qName, attrs)
    case Err(e) => Err(e)
    case Ok(t) => Ok(states[..|states| - 1] + [t.0, t.1])
  }

  /** The stack after an end element, the entity passed on (if any) and
      whether a fact was closed. */
  datatype Closed = Closed(states: seq<Handler>, entity: Option<Entity>, closedFact: bool)

  /** `endElement` of the handler on top: the root handler refuses every end
      element; the others check the name, hand what they built to the
      handler that will be on top (a fact goes to the entity, two levels
      down), and are popped. */
  function Close(states: seq<Handler>, qName: string): Result<Closed, SaxError>
    requires WellNested(states)
  {
    var n := |states|;
    var top := states[n - 1];
    if top.RootHandler? then Err(IllegalState)
    else
      Guard(CheckQname(qName, [ElementName(top)]),
        match top
        case KnowledgeBaseHandler => Ok(Closed(states[..n - 1], None, false))
        case EntryHandler(d) =>
          (match Build(d)
           case Err(e) => Err(e)
           case Ok(e) => Ok(Closed(states[..n - 1], Some(e), false)))
        case FactsHandler => Ok(Closed(states[..n - 1], None, false))
        case FactHandler(name, parts) =>
          assert ChildOf(states[n - 2], top) && ChildOf(states[n - 3], states[n - 2]);
          var d := states[n - 3].draft;
          Ok(Closed(states[n - 3 := EntryHandler(d.(facts := d.facts + [Fact(name, parts)]))][..n - 1], None, true))
        case LinkHandler(id, data) =>
          assert ChildOf(states[n - 2], top);
          var f := states[n - 2];
          Ok(Closed(states[n - 2 := f.(parts := f.parts + [LinkPart(id, data)])][..n - 1], None, false))
        case WikiTextHandler(text) =>
          assert ChildOf(states[n - 2], top);
          var d := states[n - 2].draft;
          Ok(Closed(states[n - 2 := EntryHandler(d.(wikiText := Some(text)))][..n - 1], None, false)))
  }

  /** `characters` of the handler on top: a fact keeps the text as a part,
      a link and the wiki text append it; the others ignore it. */
  function CharactersOn(top: Handler, text: string): Handler
  {
    match top
    case FactHandler(name, parts) => FactHandler(name, parts + [TextPart(text)])
    case LinkHandler(id, data) => LinkHandler(id, data + text)
    case WikiTextHandler(t) => WikiTextHandler(t + text)
    case _ => top
  }

  // ------------------------------------------------------------ properties

  /** An accepted start element keeps the handler on top (the entry handler
      may record its facts class) and pushes the handler of that element,
      one level down. */
  lemma StartPushesChild(reading: Reading, top: Handler, qName: string, attrs: Attributes)
    requires StartOn(reading, top, qName, attrs).Ok?
    ensures var t := StartOn(reading, top, qName, attrs).value;
            && (t.0 == top || (top.EntryHandler? && t.0 == EntryHandler(top.draft.(factsClass := t.0.draft.factsClass))))
            && ChildOf(t.0, t.1)
            && Text.EqualsIgnoreCase(qName, ElementName(t.1))
  {
    if top.EntryHandler? {
      assert Text.Lower("facts") == "facts";
      assert Text.Lower("wiki_text") == "wiki_text";
    }
  }

  /** The root handler takes only a `knowledge_base` element without
      attributes. */
  lemma RootStart(reading: Reading, qName: string, attrs: Attributes)
    ensures StartOn(reading, RootHandler, qName, attrs).Ok? <==> Text.EqualsIgnoreCase(qName, "knowledge_base") && |attrs| == 0
  {
    assert LowerAll({}) == {};
    if |attrs| > 0 {
      assert Text.Lower(attrs[0].0) in ActualNames(attrs);
    } else {
      assert ActualNames(attrs) == {};
    }
  }

  /** As written, the knowledge-base handler takes an `entity` element that
      has the required attributes, no more names than the four it knows, a
      known type and a `wiki_title`. */
  lemma KnowledgeBaseStart(qName: string, attrs: Attributes)
    ensures StartOn(AsWritten, KnowledgeBaseHandler, qName, attrs).Ok? <==>
              && Text.EqualsIgnoreCase(qName, "entity")
              && LowerAll({"name", "id", "type"}) <= ActualNames(attrs)
              && |ActualNames(attrs)| <= |LowerAll({"wiki_title"}) + LowerAll({"name", "id", "type"})|
              && OpenEntity(attrs).Ok? && Value(attrs, "wiki_title").Some?
  {
  }

  /** The names the knowledge-base handler knows are four. */
  lemma EntityNamesFour()
    ensures |LowerAll({"wiki_title"}) + LowerAll({"name", "id", "type"})| == 4
  {
    LowerAllNames();
    FourNames();
  }

  /** As intended, it takes an `entity` element that has the required
      attributes, no others but `wiki_title`, and a known type. */
  lemma KnowledgeBaseStartIntended(qName: string, attrs: Attributes)
    ensures StartOn(Intended, KnowledgeBaseHandler, qName, attrs).Ok? <==>
              && Text.EqualsIgnoreCase(qName, "entity")
              && LowerAll({"name", "id", "type"}) <= ActualNames(attrs)
              && ActualNames(attrs) <= LowerAll({"wiki_title"}) + LowerAll({"name", "id", "type"})
              && OpenEntity(attrs).Ok?
  {
  }

  /** The entry handler takes `facts` or `wiki_text`, whatever their
      attributes. */
  lemma EntryStart(reading: Reading, d: EntityDraft, qName: string, attrs: Attributes)
    ensures StartOn(reading, EntryHandler(d), qName, attrs).Ok? <==> QnameIn(qName, ["facts", "wiki_text"])
  {
  }

  /** The facts handler takes a `fact` element whose only attribute is its
      name, under either reading. */
  lemma FactsStart(reading: Reading, qName: string, attrs: Attributes)
    ensures StartOn(reading, FactsHandler, qName, attrs).Ok? <==>
              Text.EqualsIgnoreCase(qName, "fact") && ActualNames(attrs) == LowerAll({"name"}) && Value(attrs, "name").Some?
  {
    NameCheckAgrees(attrs);
  }

  /** Where exactly one name is required and none is optional, the size
      check is the intended check. */
  lemma NameCheckAgrees(attrs: Attributes)
    ensures CheckAttributesAsWritten(attrs, {"name"}, {}) == CheckAttributes(attrs, {"name"}, {})
  {
    LowerNames();
    OneNameCheckAgrees(attrs, "name");
  }

  lemma OneNameCheckAgrees(attrs: Attributes, x: string)
    requires Text.Lower(x) == x
    ensures CheckAttributesAsWritten(attrs, {x}, {}) == CheckAttributes(attrs, {x}, {})
  {
    var actual := ActualNames(attrs);
    assert LowerAll({x}) == {x};
    assert LowerAll({}) + LowerAll({x}) == {x};
    if x in actual {
      OnlyElement(actual, x);
      assert |{x}| < |actual| <==> !(actual <= {x});
    }
  }

  /** Where no name is allowed, the size check is the intended check. */
  lemma EmptyCheckAgrees(attrs: Attributes)
    ensures CheckAttributesAsWritten(attrs, {}, {}) == CheckAttributes(attrs, {}, {})
  {
    assert LowerAll({}) == {};
    if |attrs| > 0 {
      assert Text.Lower(attrs[0].0) in ActualNames(attrs);
    }
  }

  /** As written, a fact takes `link` elements with at most one attribute,
      whatever its name. */
  lemma FactStart(name: string, parts: seq<FactPart>, qName: string, attrs: Attributes)
    ensures StartOn(AsWritten, FactHandler(name, parts), qName, attrs).Ok? <==>
              Text.EqualsIgnoreCase(qName, "link") && |ActualNames(attrs)| <= 1
  {
    LowerEntityId();
    assert LowerAll({}) == {};
  }

  /** As intended, a fact takes `link` elements with at most an
      `entity_id`. */
  lemma FactStartIntended(name: string, parts: seq<FactPart>, qName: string, attrs: Attributes)
    ensures StartOn(Intended, FactHandler(name, parts), qName, attrs).Ok? <==>
              Text.EqualsIgnoreCase(qName, "link") && ActualNames(attrs) <= {"entity_id"}
  {
    LowerEntityId();
    assert LowerAll({}) == {};
  }

  /** The two readings differ only on entity and link elements: every other
      handler answers a start element alike under both. */
  lemma ReadingsAgree(top: Handler, qName: string, attrs: Attributes)
    requires !top.KnowledgeBaseHandler? && !top.FactHandler?
    ensures StartOn(AsWritten, top, qName, attrs) == StartOn(Intended, top, qName, attrs)
  {
    match top
    case RootHandler => EmptyCheckAgrees(attrs);
    case FactsHandler => NameCheckAgrees(attrs);
    case _ =>
  }

  /** Links and the wiki text are leaves: no element starts inside them. */
  lemma LeavesRefuseElements(reading: Reading, top: Handler, qName: string, attrs: Attributes)
    requires top.LinkHandler? || top.WikiTextHandler?
    ensures StartOn(reading, top, qName, attrs) == Err(UnexpectedElement(qName))
  {
  }

  /** An accepted start keeps the stack well nested and one deeper. */
  lemma OpenNested(reading: Reading, states: seq<Handler>, qName: string, attrs: Attributes)
    requires WellNested(states) && Open(reading, states, qName, attrs).Ok?
    ensures var s := Open(reading, states, qName, attrs).value;
            WellNested(s) && |s| == |states| + 1 && s[..|states| - 1] == states[..|states| - 1]
  {
    var n := |states|;
    StartPushesChild(reading, states[n - 1], qName, attrs);
    var s := Open(reading, states, qName, attrs).value;
    assert s[..n - 1] == states[..n - 1];
    forall i | 1 <= i < |s|
      ensures ChildOf(s[i - 1], s[i])
    {
      if i < n - 1 {
        assert ChildOf(states[i - 1], states[i]);
      } else if i == n - 1 {
        assert ChildOf(states[i - 1], states[i]);
      }
    }
  }

  /** The root handler refuses every end element; any other handler accepts
      exactly its own element's end, except that an entity without id or
      name cannot be built. */
  lemma CloseAccepts(states: seq<Handler>, qName: string)
    requires WellNested(states)
    ensures var top := states[|states| - 1];
            && (top.RootHandler? ==> Close(states, qName) == Err(IllegalState))
            && (!top.RootHandler? ==>
                  (Close(states, qName).Ok? <==>
                     Text.EqualsIgnoreCase(qName, ElementName(top))
                     && (top.EntryHandler? ==> top.draft.id.Some? && top.draft.name.Some?)))
  {
    QnameOne(qName, ElementName(states[|states| - 1]));
  }

  /** An accepted end pops one handler, leaves the stack well nested and
      changes no handler more than two levels down; an entity is passed on
      exactly when an entity closes, and a fact is counted exactly when a
      fact closes. */
  lemma ClosePops(states: seq<Handler>, qName: string)
    requires WellNested(states) && Close(states, qName).Ok?
    ensures var c := Close(states, qName).value; var n := |states|;
            && |c.states| == n - 1
            && WellNested(c.states)
            && (n >= 3 ==> c.states[..n - 3] == states[..n - 3])
            && (forall i :: 0 <= i < n - 1 ==> Level(c.states[i]) == Level(states[i]))
            && (c.entity.Some? <==> states[n - 1].EntryHandler?)
            && (c.closedFact <==> states[n - 1].FactHandler?)
  {
    var n := |states|;
    var c := Close(states, qName).value;
    NestedLevels(states);
    assert forall i :: 0 <= i < n - 1 ==> Level(c.states[i]) == Level(states[i]);
    forall i | 1 <= i < n - 1
      ensures ChildOf(c.states[i - 1], c.states[i])
    {
      assert ChildOf(states[i - 1], states[i]);
    }
  }

  /** Closing keeps the count of facts seen: a closed fact joins the
      entity being read, and a closed entity takes its facts along. */
  lemma CloseCountsFacts(states: seq<Handler>, qName: string)
    requires WellNested(states) && Close(states, qName).Ok?
    ensures var c := Close(states, qName).value;
            OpenFacts(c.states) + (if c.entity.Some? then |c.entity.value.facts| else 0)
            == OpenFacts(states) + (if c.closedFact then 1 else 0)
  {
    NestedLevels(states);
    ClosePops(states, qName);
  }

  /** A start element followed at once by its end returns the stack to its
      height: the handler pushed for an element accepts that element's end
      (an entity only once it has an id and a name). */
  lemma StartThenEnd(reading: Reading, states: seq<Handler>, qName: string, attrs: Attributes)
    requires WellNested(states) && Open(reading, states, qName, attrs).Ok?
    requires var s := Open(reading, states, qName, attrs).value; s[|s| - 1].EntryHandler? ==> s[|s| - 1].draft.id.Some? && s[|s| - 1].draft.name.Some?
    ensures WellNested(Open(reading, states, qName, attrs).value)
    ensures Close(Open(reading, states, qName, attrs).value, qName).Ok?
    ensures |Close(Open(reading, states, qName, attrs).value, qName).value.states| == |states|
  {
    var s := Open(reading, states, qName, attrs).value;
    StartPushesChild(reading, states[|states| - 1], qName, attrs);
    OpenNested(reading, states, qName, attrs);
    CloseAccepts(s, qName);
    ClosePops(s, qName);
  }

  /** Character data changes only the handler on top, and not its kind. */
  lemma CharactersKeepKind(top: Handler, text: string)
    ensures Level(CharactersOn(top, text)) == Level(top)
    ensures top.FactHandler? ==> CharactersOn(top, text).parts == top.parts + [TextPart(text)]
    ensures top.LinkHandler? ==> CharactersOn(top, text).data == top.data + text
    ensures top.WikiTextHandler? ==> CharactersOn(top, text).text == top.text + text
  {
  }

  // ------------------------------------------------------------ findings

  /** An entity with its required attributes and an unknown one instead of
      `wiki_title`. */
  const UnknownAttributeEntity: Attributes := [("name", "Mike Quigley"), ("id", "E0000001"), ("type", "PER"), ("bogus", "x")]

  lemma LowerKeeps(s: string)
    requires forall i :: 0 <= i < |s| ==> !('A' <= s[i] <= 'Z')
    ensures Text.Lower(s) == s
  {
  }

  lemma LowerNames()
    ensures Text.Lower("name") == "name" && Text.Lower("id") == "id" && Text.Lower("type") == "type"
    ensures Text.Lower("bogus") == "bogus" && Text.Lower("wiki_title") == "wiki_title"
  {
    LowerKeeps("name");
    LowerKeeps("id");
    LowerKeeps("type");
    LowerKeeps("bogus");
    LowerKeeps("wiki_title");
  }

  lemma LowerAllNames()
    ensures LowerAll({"name", "id", "type"}) == {"name", "id", "type"}
    ensures LowerAll({"wiki_title"}) == {"wiki_title"}
  {
    LowerNames();
  }

  lemma LowerEntityId()
    ensures LowerAll({"entity_id"}) == {"entity_id"} && Text.Lower("bogus") == "bogus"
  {
    LowerKeeps("entity_id");
    LowerKeeps("bogus");
  }

  /** A set holding `x` has more than one element exactly when it holds
      another. */
  lemma OnlyElement(a: set<string>, x: string)
    requires x in a
    ensures |a| <= 1 <==> a == {x}
  {
    if a != {x} {
      var y :| y in a && y != x;
      assert {x, y} <= a;
      SubsetCard({x, y}, a);
    }
  }

  /** As written, a link with one unknown attribute is accepted; as
      intended it is refused as unhandled. */
  lemma LinkWithUnknownAttribute(name: string, parts: seq<FactPart>)
    ensures StartOn(AsWritten, FactHandler(name, parts), "link", [("bogus", "x")]).Ok?
    ensures StartOn(Intended, FactHandler(name, parts), "link", [("bogus", "x")]) == Err(UnhandledAttributes)
  {
    BogusLinkChecks();
    var link := "link";
    assert Text.EqualsIgnoreCase(link, [link][0]);
    assert CheckQname(link, [link]) == Pass;
  }

  /** A lone "bogus" attribute passes the size check for a link and fails
      the intended one. */
  lemma BogusLinkChecks()
    ensures CheckAttributesAsWritten([("bogus", "x")], {}, {"entity_id"}) == Pass
    ensures CheckAttributes([("bogus", "x")], {}, {"entity_id"}) == Fail(UnhandledAttributes)
  {
    LowerEntityId();
    var attrs: Attributes := [("bogus", "x")];
    assert ActualNames(attrs) == {"bogus"} by {
      assert Text.Lower(attrs[0].0) in ActualNames(attrs);
    }
    assert LowerAll({}) == {};
    assert "bogus" != "entity_id";
  }

  lemma UnknownAttributeNames()
    ensures ActualNames(UnknownAttributeEntity) == {"name", "id", "type", "bogus"}
  {
    LowerNames();
    var a := UnknownAttributeEntity;
    assert a[0].0 == "name" && a[1].0 == "id" && a[2].0 == "type" && a[3].0 == "bogus";
    assert forall x :: x in ActualNames(a) ==> x in {"name", "id", "type", "bogus"};
    assert Text.Lower(a[0].0) in ActualNames(a) && Text.Lower(a[1].0) in ActualNames(a);
    assert Text.Lower(a[2].0) in ActualNames(a) && Text.Lower(a[3].0) in ActualNames(a);
  }

  lemma FourNames()
    ensures |{"name", "id", "type", "bogus"}| == 4
    ensures |{"wiki_title"} + {"name", "id", "type"}| == 4
    ensures "bogus" !in {"wiki_title"} + {"name", "id", "type"}
  {
    assert "name"[0] != "type"[0] && "name"[0] != "bogus"[0] && "type"[0] != "bogus"[0];
    assert "wiki_title"[0] != "name"[0] && "wiki_title"[0] != "type"[0] && "wiki_title"[0] != "bogus"[0];
    assert |"id"| == 2 && |"name"| == 4 && |"type"| == 4 && |"bogus"| == 5 && |"wiki_title"| == 10;
    assert {"wiki_title"} + {"name", "id", "type"} == {"wiki_title", "name", "id", "type"};
  }

  /** Any entity whose names are the required ones and one unknown name
      passes the size check and fails the intended one. */
  lemma SizeCheckAdmitsUnknown(attrs: Attributes)
    requires ActualNames(attrs) == {"name", "id", "type", "bogus"}
    ensures CheckAttributesAsWritten(attrs, {"name", "id", "type"}, {"wiki_title"}) == Pass
    ensures CheckAttributes(attrs, {"name", "id", "type"}, {"wiki_title"}) == Fail(UnhandledAttributes)
  {
    LowerAllNames();
    FourNames();
  }

  /** The size check lets the unknown attribute through, since four names
      is no more than the four allowed; the intended check refuses it. */
  lemma SizeCheckAdmitsUnknownAttribute()
    ensures CheckAttributesAsWritten(UnknownAttributeEntity, {"name", "id", "type"}, {"wiki_title"}) == Pass
    ensures CheckAttributes(UnknownAttributeEntity, {"name", "id", "type"}, {"wiki_title"}) == Fail(UnhandledAttributes)
  {
    UnknownAttributeNames();
    SizeCheckAdmitsUnknown(UnknownAttributeEntity);
  }

  /** An entity without `wiki_title`. */
  const UntitledEntity: Attributes := [("name", "Mike Quigley"), ("id", "E0000001"), ("type", "PER")]

  /** As written, opening it fails on the missing title; as intended it
      opens with no title. */
  lemma UntitledEntityRefused()
    ensures OpenEntityAsWritten(UntitledEntity) == Err(NullValue("wiki_title"))
    ensures OpenEntity(UntitledEntity).Ok? && OpenEntity(UntitledEntity).value.wikiTitle == None
  {
    var a := UntitledEntity;
    assert Value(a, "type") == Some("PER");
    assert Value(a, "wiki_title") == None;
  }

  // ------------------------------------------------------------ the handler

  /** The facts of the given entities, counted. */
  function TotalFacts(entries: seq<Entity>): nat
  {
    if entries == [] then 0 else TotalFacts(entries[..|entries| - 1]) + |entries[|entries| - 1].facts|
  }

  /** The facts of the entity being read, if any. */
  function OpenFacts(states: seq<Handler>): nat
  {
    if |states| >= 3 && states[2].EntryHandler? then |states[2].draft.facts| else 0
  }

  /** A start element opens no fact of the entity being read and drops
      none. */
  lemma OpenKeepsOpenFacts(reading: Reading, states: seq<Handler>, qName: string, attrs: Attributes)
    requires WellNested(states) && Open(reading, states, qName, attrs).Ok?
    ensures OpenFacts(Open(reading, states, qName, attrs).value) == OpenFacts(states)
  {
    NestedLevels(states);
    StartPushesChild(reading, states[|states| - 1], qName, attrs);
  }

  /** The stack step of `startElement`: the handler on top checks the
      element, as the code is written, and the handler it answers is pushed. */
  method StartOnStack(states: seq<Handler>, qName: string, attrs: Attributes) returns (r: Result<seq<Handler>, SaxError>)
    requires WellNested(states)
    ensures r == Open(AsWritten, states, qName, attrs)
    ensures r.Ok? ==> WellNested(r.value) && OpenFacts(r.value) == OpenFacts(states)
  {
    var n := |states|;
    var top := states[n - 1];
    var step := StartOn(AsWritten, top, qName, attrs);
    if step.Err? {
      return Err(step.error);
    }
    var (newTop, child) := step.value;
    OpenNested(AsWritten, states, qName, attrs);
    OpenKeepsOpenFacts(AsWritten, states, qName, attrs);
    r := Ok(states[..n - 1] + [newTop] + [child]);
    assert r.value == Open(AsWritten, states, qName, attrs).value;
  }

  class T9SaxHandler {
    /** The handler stack, root first. */
    var states: seq<Handler>
    /** The entities passed to the entry callback, in order. */
    var entries: seq<Entity>
    var entityCount: nat
    var factCount: nat

    ghost predicate Valid()
      reads this
    {
      WellNested(states)
      && entityCount == |entries|
      && factCount == TotalFacts(entries) + OpenFacts(states)
    }

    constructor ()
      ensures Valid()
      ensures states == [RootHandler] && entries == [] && entityCount == 0 && factCount == 0
    {
      states := [RootHandler];
      entries := [];
      entityCount := 0;
      factCount := 0;
    }

    /** `startElement`: handed to the handler on top, which checks the
        element and pushes the handler for it. */
    method StartElement(qName: string, attrs: Attributes) returns (r: Outcome<SaxError>)
      requires Valid()
      modifies this
      ensures Valid()
      ensures Open(AsWritten, old(states), qName, attrs).Err? ==> r == Fail(Open(AsWritten, old(states), qName, attrs).error) && states == old(states)
      ensures Open(AsWritten, old(states), qName, attrs).Ok? ==> r == Pass && states == Open(AsWritten, old(states), qName, attrs).value
      ensures entries == old(entries) && entityCount == old(entityCount) && factCount == old(factCount)
    {
      var pushed := StartOnStack(states, qName, attrs);
      if pushed.Err? {
        return Fail(pushed.error);
      }
      states := pushed.value;
      r := Pass;
    }

    /** `endElement`: handed to the handler on top, which checks the name,
        passes on what it built and pops itself. */
    method EndElement(qName: string) returns (r: Outcome<SaxError>)
      requires Valid()
      modifies this
      ensures Valid()
      ensures Close(old(states), qName).Err? ==> r == Fail(Close(old(states), qName).error) && unchanged(this)
      ensures Close(old(states), qName).Ok? ==>
                var c := Close(old(states), qName).value;
                && r == Pass && states == c.states
                && entries == old(entries) + (if c.entity.Some? then [c.entity.value] else [])
                && entityCount == old(entityCount) + (if c.entity.Some? then 1 else 0)
                && factCount == old(factCount) + (if c.closedFact then 1 else 0)
    {
      var n := |states|;
      var top := states[n - 1];
      if top.RootHandler? {
        return Fail(IllegalState);
      }
      var check := CheckQname(qName, [ElementName(top)]);
      if check.Fail? {
        return check;
      }
      NestedLevels(states);
      match top {
        case KnowledgeBaseHandler =>
          states := states[..n - 1];
          assert Close(old(states), qName) == Ok(Closed(states, None, false));
        case EntryHandler(d) =>
          var built := Build(d);
          if built.Err? {
            return Fail(built.error);
          }
          assert TotalFacts(entries + [built.value]) == TotalFacts(entries) + |d.facts| by {
            assert (entries + [built.value])[..|entries|] == entries;
          }
          entries := entries + [built.value];
          entityCount := entityCount + 1;
          states := states[..n - 1];
          assert Close(old(states), qName) == Ok(Closed(states, Some(built.value), false));
        case FactsHandler =>
          states := states[..n - 1];
          assert Close(old(states), qName) == Ok(Closed(states, None, false));
        case FactHandler(name, parts) =>
          var d := states[n - 3].draft;
          states := states[n - 3 := EntryHandler(d.(facts := d.facts + [Fact(name, parts)]))][..n - 1];
          factCount := factCount + 1;
          assert Close(old(states), qName) == Ok(Closed(states, None, true));
        case LinkHandler(id, data) =>
          var f := states[n - 2];
          states := states[n - 2 := f.(parts := f.parts + [LinkPart(id, data)])][..n - 1];
          assert Close(old(states), qName) == Ok(Closed(states, None, false));
        case WikiTextHandler(text) =>
          var d := states[n - 2].draft;
          states := states[n - 2 := EntryHandler(d.(wikiText := Some(text)))][..n - 1];
          assert Close(old(states), qName) == Ok(Closed(states, None, false));
      }
      ClosePops(old(states), qName);
      CloseCountsFacts(old(states), qName);
      r := Pass;
    }

    /** `characters`: handed to the handler on top. */
    method Characters(text: string)
      requires Valid()
      modifies this
      ensures Valid()
      ensures states == old(states)[|old(states)| - 1 := CharactersOn(old(states)[|old(states)| - 1], text)]
      ensures entries == old(entries) && entityCount == old(entityCount) && factCount == old(factCount)
    {
      var n := |states|;
      NestedLevels(states);
      var top := states[n - 1];
      states := states[n - 1 := CharactersOn(top, text)];
      assert forall i :: 1 <= i < n - 1 ==> ChildOf(states[i - 1], states[i]);
      if n >= 2 {
        assert ChildOf(old(states)[n - 2], old(states)[n - 1]);
      }
    }
  }
}
