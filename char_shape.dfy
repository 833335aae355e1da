// `CharacterShapeAnnotator`: every code point of a token's text (or lemma)
// is replaced by one character standing for its Unicode general category,
// so "BN2" has the shape "AA#". Java strings are sequences of UTF-16 code
// units; the annotator walks them by code point. `Character.getType` is an
// oracle parameter returning Java's numeric category constant.
module CharacterShape {
  import opened Wrappers
  import Text

  /** A UTF-16 code unit. */
  type CodeUnit = u: int | 0 <= u < 0x1_0000

  /** Java's general categories (`Character.getType`). */
  datatype Category =
    | Unassigned | UppercaseLetter | LowercaseLetter | TitlecaseLetter | ModifierLetter | OtherLetter
    | NonSpacingMark | EnclosingMark | CombiningSpacingMark
    | DecimalDigitNumber | LetterNumber | OtherNumber
    | SpaceSeparator | LineSeparator | ParagraphSeparator
    | Control | Format | PrivateUse | Surrogate
    | DashPunctuation | StartPunctuation | EndPunctuation | ConnectorPunctuation | OtherPunctuation
    | MathSymbol | CurrencySymbol | ModifierSymbol | OtherSymbol
    | InitialQuotePunctuation | FinalQuotePunctuation

  /** The category a `Character.getType` value stands for; 17 and values
      outside 0..30 stand for none. */
  function CategoryOf(t: int): Option<Category>
  {
    match t
    case 0 => Some(Unassigned)
    case 1 => Some(UppercaseLetter)
    case 2 => Some(LowercaseLetter)
    case 3 => Some(TitlecaseLetter)
    case 4 => Some(ModifierLetter)
    case 5 => Some(OtherLetter)
    case 6 => Some(NonSpacingMark)
    case 7 => Some(EnclosingMark)
    case 8 => Some(CombiningSpacingMark)
    case 9 => Some(DecimalDigitNumber)
    case 10 => Some(LetterNumber)
    case 11 => Some(OtherNumber)
    case 12 => Some(SpaceSeparator)
    case 13 => Some(LineSeparator)
    case 14 => Some(ParagraphSeparator)
    case 15 => Some(Control)
    case 16 => Some(Format)
    case 18 => Some(PrivateUse)
    case 19 => Some(Surrogate)
    case 20 => Some(DashPunctuation)
    case 21 => Some(StartPunctuation)
    case 22 => Some(EndPunctuation)
    case 23 => Some(ConnectorPunctuation)
    case 24 => Some(OtherPunctuation)
    case 25 => Some(MathSymbol)
    case 26 => Some(CurrencySymbol)
    case 27 => Some(ModifierSymbol)
    case 28 => Some(OtherSymbol)
    case 29 => Some(InitialQuotePunctuation)
    case 30 => Some(FinalQuotePunctuation)
    case _ => None
  }

  /** Java's numeric constant of a category. */
  function TypeCode(c: Category): int
  {
    match c
    case Unassigned => 0
    case UppercaseLetter => 1
    case LowercaseLetter => 2
    case TitlecaseLetter => 3
    case ModifierLetter => 4
    case OtherLetter => 5
    case NonSpacingMark => 6
    case EnclosingMark => 7
    case CombiningSpacingMark => 8
    case DecimalDigitNumber => 9
    case LetterNumber => 10
    case OtherNumber => 11
    case SpaceSeparator => 12
    case LineSeparator => 13
    case ParagraphSeparator => 14
    case Control => 15
    case Format => 16
    case PrivateUse => 18
    case Surrogate => 19
    case DashPunctuation => 20
    case StartPunctuation => 21
    case EndPunctuation => 22
    case ConnectorPunctuation => 23
    case OtherPunctuation => 24
    case MathSymbol => 25
    case CurrencySymbol => 26
    case ModifierSymbol => 27
    case OtherSymbol => 28
    case InitialQuotePunctuation => 29
    case FinalQuotePunctuation => 30
  }

  /** Decoding a category's constant gives the category back. */
  lemma CategoryRoundTrip(c: Category)
    ensures CategoryOf(TypeCode(c)) == Some(c)
  {
  }

  /** Every constant but 17 in 0..30 stands for the category with that
      constant. */
  lemma TypeCodeRoundTrip(t: int)
    requires CategoryOf(t).Some?
    ensures TypeCode(CategoryOf(t).value) == t
  {
  }

  const Whitespace := ' '
  const Currency := '$'
  const Digit := '#'
  const LowercaseShape := 'a'
  const UppercaseShape := 'A'
  const Punctuation := '.'
  const Unknown := '?'

  /** The replacement `replacementForCodepoint` picks for a category. */
  function Replacement(c: Category): char
  {
    match c
    case CurrencySymbol => Currency
    case CombiningSpacingMark | LineSeparator | ParagraphSeparator | SpaceSeparator | Control => Whitespace
    case DecimalDigitNumber | LetterNumber | OtherNumber => Digit
    case LowercaseLetter | OtherLetter | ModifierLetter => LowercaseShape
    case UppercaseLetter | TitlecaseLetter => UppercaseShape
    case ConnectorPunctuation | DashPunctuation | EnclosingMark | StartPunctuation | EndPunctuation
      | FinalQuotePunctuation | Format | InitialQuotePunctuation | MathSymbol | ModifierSymbol
      | NonSpacingMark | OtherPunctuation | OtherSymbol => Punctuation
    case Surrogate | PrivateUse | Unassigned => Unknown
  }

  predicate IsShapeChar(c: char)
  {
    c in {Whitespace, Currency, Digit, LowercaseShape, UppercaseShape, Punctuation, Unknown}
  }

  /** The seven classes of categories, each with its replacement. */
  lemma ReplacementClasses(c: Category)
    ensures IsShapeChar(Replacement(c))
    ensures Replacement(c) == Currency <==> c == CurrencySymbol
    ensures Replacement(c) == Digit <==> c in {DecimalDigitNumber, LetterNumber, OtherNumber}
    ensures Replacement(c) == UppercaseShape <==> c in {UppercaseLetter, TitlecaseLetter}
    ensures Replacement(c) == LowercaseShape <==> c in {LowercaseLetter, OtherLetter, ModifierLetter}
    ensures Replacement(c) == Whitespace <==> c in {CombiningSpacingMark, LineSeparator, ParagraphSeparator, SpaceSeparator, Control}
    ensures Replacement(c) == Unknown <==> c in {Surrogate, PrivateUse, Unassigned}
    ensures Replacement(c) == Punctuation <==>
              c in {ConnectorPunctuation, DashPunctuation, EnclosingMark, StartPunctuation, EndPunctuation,
                    FinalQuotePunctuation, Format, InitialQuotePunctuation, MathSymbol, ModifierSymbol,
                    NonSpacingMark, OtherPunctuation, OtherSymbol}
  {
  }

  /** `getType` returned a value the switch does not list. */
  datatype ShapeError = UnknownType(codePoint: int, typeCode: int) | MissingInput

  /** `replacementForCodepoint`: the replacement of the code point's
      category; a type value outside the table is an `AssertionError`. */
  function ReplacementForCodePoint(getType: int -> int, cp: int): (r: Result<char, ShapeError>)
    ensures r.Err? <==> CategoryOf(getType(cp)).None?
    ensures r.Ok? ==> r.value == Replacement(CategoryOf(getType(cp)).value) && IsShapeChar(r.value)
  {
    match CategoryOf(getType(cp))
    case Some(c) => ReplacementClasses(c); Ok(Replacement(c))
    case None => Err(UnknownType(cp, getType(cp)))
  }

  /** Every value a category stands for has a replacement, so the error
      needs a type value `getType` never returns. */
  lemma EveryCategoryReplaced(getType: int -> int, cp: int)
    requires exists c :: getType(cp) == TypeCode(c)
    ensures ReplacementForCodePoint(getType, cp).Ok?
  {
    var c :| getType(cp) == TypeCode(c);
    CategoryRoundTrip(c);
  }

  // ------------------------------------------------------------ code points

  predicate IsHighSurrogate(u: int)
  {
    0xD800 <= u <= 0xDBFF
  }

  predicate IsLowSurrogate(u: int)
  {
    0xDC00 <= u <= 0xDFFF
  }

  /** `String.codePointAt(i)`: a high surrogate followed by a low one forms
      one supplementary code point; any other unit stands for itself. */
  function CodePointAt(s: seq<CodeUnit>, i: nat): (cp: int)
    requires i < |s|
    ensures 0 <= cp <= 0x10_FFFF
    ensures cp >= 0x1_0000 <==> i + 1 < |s| && IsHighSurrogate(s[i]) && IsLowSurrogate(s[i + 1])
    ensures cp < 0x1_0000 ==> cp == s[i]
  {
    if IsHighSurrogate(s[i]) && i + 1 < |s| && IsLowSurrogate(s[i + 1])
    then (s[i] as int - 0xD800) * 0x400 + (s[i + 1] as int - 0xDC00) + 0x1_0000
    else s[i]
  }

  /** `Character.charCount`. */
  function CharCount(cp: int): nat
  {
    if cp >= 0x1_0000 then 2 else 1
  }

  /** The code points of a UTF-16 string, in order. */
  function CodePoints(s: seq<CodeUnit>): (cps: seq<int>)
    ensures |cps| <= |s|
    decreases |s|
  {
    if s == [] then [] else [CodePointAt(s, 0)] + CodePoints(s[CharCount(CodePointAt(s, 0))..])
  }

  /** A string without surrogates has one code point per unit. */
  lemma {:induction false} NoSurrogatesOnePerUnit(s: seq<CodeUnit>)
    requires forall i :: 0 <= i < |s| ==> !IsHighSurrogate(s[i])
    ensures CodePoints(s) == s
  {
    if s != [] {
      NoSurrogatesOnePerUnit(s[1..]);
      assert [s[0]] + s[1..] == s;
    }
  }

  /** The UTF-16 encoding of a code point (`Character.toChars`). */
  function ToChars(cp: int): seq<CodeUnit>
    requires 0 <= cp <= 0x10_FFFF
  {
    if cp < 0x1_0000 then [cp]
    else [0xD800 + (cp - 0x1_0000) / 0x400, 0xDC00 + (cp - 0x1_0000) % 0x400]
  }

  function Encode(cps: seq<int>): seq<CodeUnit>
    requires forall i :: 0 <= i < |cps| ==> 0 <= cps[i] <= 0x10_FFFF
  {
    if cps == [] then [] else ToChars(cps[0]) + Encode(cps[1..])
  }

  /** Walking the encoding of scalar values gives them back. */
  lemma {:induction false} CodePointsOfEncode(cps: seq<int>)
    requires forall i :: 0 <= i < |cps| ==> 0 <= cps[i] <= 0x10_FFFF && !(0xD800 <= cps[i] <= 0xDFFF)
    ensures CodePoints(Encode(cps)) == cps
  {
    if cps != [] {
      var s := Encode(cps);
      var head := ToChars(cps[0]);
      var tail := Encode(cps[1..]);
      assert s == head + tail;
      CodePointsOfEncode(cps[1..]);
      assert CodePointAt(s, 0) == cps[0];
      assert s[CharCount(cps[0])..] == tail;
    }
  }

  // ------------------------------------------------------------ shapes

  /** Replace every code point by `f` of it, in order, stopping at the
      first failure. */
  function MapAll<E>(f: int -> Result<char, E>, cps: seq<int>): Result<string, E>
  {
    if cps == [] then Ok("")
    else
      match f(cps[0])
      case Err(e) => Err(e)
      case Ok(c) =>
        match MapAll(f, cps[1..])
        case Err(e) => Err(e)
        case Ok(rest) => Ok([c] + rest)
  }

  /** The replacement succeeds exactly when `f` succeeds on every code
      point. */
  lemma {:induction false} MapAllOk<E>(f: int -> Result<char, E>, cps: seq<int>)
    ensures MapAll(f, cps).Ok? <==> forall i :: 0 <= i < |cps| ==> f(cps[i]).Ok?
  {
    if cps != [] {
      MapAllOk(f, cps[1..]);
      assert forall i :: 1 <= i < |cps| ==> cps[i] == cps[1..][i - 1];
    }
  }

  /** A successful replacement holds one character per code point: `f` of
      that code point. */
  lemma {:induction false} MapAllValue<E>(f: int -> Result<char, E>, cps: seq<int>)
    requires MapAll(f, cps).Ok?
    ensures |MapAll(f, cps).value| == |cps|
    ensures forall i :: 0 <= i < |cps| ==> f(cps[i]) == Ok(MapAll(f, cps).value[i])
  {
    if cps != [] {
      MapAllValue(f, cps[1..]);
      var w := MapAll(f, cps).value;
      var wr := MapAll(f, cps[1..]).value;
      assert w == [f(cps[0]).value] + wr;
      assert forall i :: 1 <= i < |cps| ==> cps[i] == cps[1..][i - 1] && w[i] == wr[i - 1];
    }
  }

  /** `MapAll` follows the code-point walk: one code point, then the rest of
      the units. */
  lemma CodePointsStep(s: seq<CodeUnit>, i: nat)
    requires i < |s|
    ensures i + CharCount(CodePointAt(s, i)) <= |s|
    ensures CodePoints(s[i..]) == [CodePointAt(s, i)] + CodePoints(s[i + CharCount(CodePointAt(s, i))..])
  {
    assert CodePointAt(s[i..], 0) == CodePointAt(s, i);
    assert s[i..][CharCount(CodePointAt(s, i))..] == s[i + CharCount(CodePointAt(s, i))..];
  }

  /** `replacementForCodepoint` as a function value. */
  function Replacer(getType: int -> int): int -> Result<char, ShapeError>
  {
    cp => ReplacementForCodePoint(getType, cp)
  }

  /** The shape of a string: one replacement per code point, or the error
      at the first code point whose type is not in the table. */
  function ShapeOf(getType: int -> int, s: seq<CodeUnit>): Result<string, ShapeError>
  {
    MapAll(Replacer(getType), CodePoints(s))
  }

  /** The shape exists exactly when every code point has a category, has
      one character per code point, and each is the replacement of that
      code point's category. */
  lemma ShapeSpec(getType: int -> int, s: seq<CodeUnit>)
    ensures ShapeOf(getType, s).Ok? <==> forall i :: 0 <= i < |CodePoints(s)| ==> CategoryOf(getType(CodePoints(s)[i])).Some?
    ensures ShapeOf(getType, s).Ok? ==> |ShapeOf(getType, s).value| == |CodePoints(s)|
    ensures ShapeOf(getType, s).Ok? ==> forall i :: 0 <= i < |CodePoints(s)| ==>
              && CategoryOf(getType(CodePoints(s)[i])).Some?
              && ShapeOf(getType, s).value[i] == Replacement(CategoryOf(getType(CodePoints(s)[i])).value)
              && IsShapeChar(ShapeOf(getType, s).value[i])
  {
    var cps := CodePoints(s);
    assert forall i :: 0 <= i < |cps| ==> Replacer(getType)(cps[i]) == ReplacementForCodePoint(getType, cps[i]);
    MapAllOk(Replacer(getType), CodePoints(s));
    if ShapeOf(getType, s).Ok? {
      MapAllValue(Replacer(getType), CodePoints(s));
    }
  }

  /** `output` followed by the shape of the code points from unit `i` on. */
  function ShapeFrom(getType: int -> int, input: seq<CodeUnit>, i: nat, output: string): Result<string, ShapeError>
    requires i <= |input|
  {
    match MapAll(Replacer(getType), CodePoints(input[i..]))
    case Ok(rest) => Ok(output + rest)
    case Err(e) => Err(e)
  }

  /** One step of the loop: the code point at `i` is replaced by `c`, or its
      error is the error of the whole remainder. */
  lemma ShapeFromStep(getType: int -> int, input: seq<CodeUnit>, i: nat, output: string)
    requires i < |input|
    ensures i + CharCount(CodePointAt(input, i)) <= |input|
    ensures Replacer(getType)(CodePointAt(input, i)).Err? ==>
      ShapeFrom(getType, input, i, output) == Err(Replacer(getType)(CodePointAt(input, i)).error)
    ensures Replacer(getType)(CodePointAt(input, i)).Ok? ==>
      ShapeFrom(getType, input, i, output) ==
      ShapeFrom(getType, input, i + CharCount(CodePointAt(input, i)), output + [Replacer(getType)(CodePointAt(input, i)).value])
  {
    var cp := CodePointAt(input, i);
    CodePointsStep(input, i);
    var j := i + CharCount(cp);
    match Replacer(getType)(cp)
    case Err(_) =>
    case Ok(c) =>
      match MapAll(Replacer(getType), CodePoints(input[j..]))
      case Err(_) =>
      case Ok(rest) =>
        assert output + ([c] + rest) == (output + [c]) + rest;
  }

  /** The code-point loop of `annotate` for one string. */
  method Shape(getType: int -> int, input: seq<CodeUnit>) returns (r: Result<string, ShapeError>)
    ensures r == ShapeOf(getType, input)
  {
    var output := "";
    var i := 0;
    assert ShapeOf(getType, input) == ShapeFrom(getType, input, 0, output) by {
      assert input[0..] == input;
      match MapAll(Replacer(getType), CodePoints(input))
      case Err(_) =>
      case Ok(rest) => assert output + rest == rest;
    }
    while i < |input|
      invariant 0 <= i <= |input|
      invariant ShapeOf(getType, input) == ShapeFrom(getType, input, i, output)
    {
      var cp := CodePointAt(input, i);
      ShapeFromStep(getType, input, i, output);
      var c := ReplacementForCodePoint(getType, cp);
      assert Replacer(getType)(cp) == c;
      if c.Err? {
        return Err(c.error);
      }
      output := output + [c.value];
      i := i + CharCount(cp);
    }
    assert input[i..] == [] && output + "" == output;
    r := Ok(output);
  }

  /** An example of the annotator's test, for a `getType` that classifies
      its characters as Unicode does: "BN2" has the shape "AA#". */
  lemma ShapeExampleBn2(getType: int -> int)
    requires getType('B' as int) == TypeCode(UppercaseLetter) && getType('N' as int) == TypeCode(UppercaseLetter)
    requires getType('2' as int) == TypeCode(DecimalDigitNumber)
    ensures ShapeOf(getType, ['B' as int, 'N' as int, '2' as int]) == Ok("AA#")
  {
    var f := Replacer(getType);
    assert f('B' as int) == Ok('A') && f('N' as int) == Ok('A') && f('2' as int) == Ok('#');
    var bn2: seq<CodeUnit> := ['B' as int, 'N' as int, '2' as int];
    NoSurrogatesOnePerUnit(bn2);
    MapAllOk(f, bn2);
    MapAllValue(f, bn2);
    var w := MapAll(f, bn2).value;
    assert w[0] == 'A' && w[1] == 'A' && w[2] == '#';
    assert w == "AA#";
  }

  /** Another example of the test: "€30" has the shape "$##". */
  lemma ShapeExampleEuro(getType: int -> int)
    requires getType(0x20AC) == TypeCode(CurrencySymbol)
    requires getType('3' as int) == TypeCode(DecimalDigitNumber) && getType('0' as int) == TypeCode(DecimalDigitNumber)
    ensures ShapeOf(getType, [0x20AC, '3' as int, '0' as int]) == Ok("$##")
  {
    var f := Replacer(getType);
    assert f(0x20AC) == Ok('$') && f('3' as int) == Ok('#') && f('0' as int) == Ok('#');
    var euro: seq<CodeUnit> := [0x20AC, '3' as int, '0' as int];
    NoSurrogatesOnePerUnit(euro);
    MapAllOk(f, euro);
    MapAllValue(f, euro);
    var v := MapAll(f, euro).value;
    assert v[0] == '$' && v[1] == '#' && v[2] == '#';
    assert v == "$##";
  }

  // ------------------------------------------------------------ the annotator

  /** A token's text and lemma as the annotator reads them, and the shape
      it sets. */
  datatype Token = Token(text: Option<seq<CodeUnit>>, lemmaText: Option<seq<CodeUnit>>, shape: Option<string>)

  /** A document: its tokens when the tokens annotation is present, and
      whether the lemma annotation is present. */
  datatype Document = Document(tokens: Option<seq<Token>>, hasLemmas: bool)

  datatype AnnotateError = MissingTokens | MissingLemmas | ShapeFailed(e: ShapeError)

  datatype Requirement = TokensRequired | LemmasRequired

  const LemmaUsedKey := "charshape.lemmaUsed"
  const LemmaUsedDefault := false

  /** `Boolean.valueOf(String)`: true exactly for "true" in any letter case. */
  function ParseBoolean(s: string): (b: bool)
    ensures b <==> |s| == 4 && forall i :: 0 <= i < 4 ==> Text.LowerChar(s[i]) == "true"[i]
  {
    |s| == 4 && Text.LowerChar(s[0]) == 't' && Text.LowerChar(s[1]) == 'r' && Text.LowerChar(s[2]) == 'u' && Text.LowerChar(s[3]) == 'e'
  }

  /** The string `annotate` shapes for a token. */
  function InputOf(t: Token, lemmaUsed: bool): Option<seq<CodeUnit>>
  {
    if lemmaUsed then t.lemmaText else t.text
  }

  /** The tokens with their shapes set, or the first failure. A token
      without the string to shape fails as the dereference of null does. */
  function ShapedTokens(getType: int -> int, tokens: seq<Token>, lemmaUsed: bool): Result<seq<Token>, AnnotateError>
  {
    if tokens == [] then Ok([])
    else
      match InputOf(tokens[0], lemmaUsed)
      case None => Err(ShapeFailed(MissingInput))
      case Some(input) =>
        match ShapeOf(getType, input)
        case Err(e) => Err(ShapeFailed(e))
        case Ok(shape) =>
          match ShapedTokens(getType, tokens[1..], lemmaUsed)
          case Err(e) => Err(e)
          case Ok(rest) => Ok([tokens[0].(shape := Some(shape))] + rest)
  }

  /** On success every token keeps its text and lemma and gets the shape of
      the string the configuration selects. */
  lemma {:induction false} ShapedTokensSpec(getType: int -> int, tokens: seq<Token>, lemmaUsed: bool)
    requires ShapedTokens(getType, tokens, lemmaUsed).Ok?
    ensures var out := ShapedTokens(getType, tokens, lemmaUsed).value;
            && |out| == |tokens|
            && forall i :: 0 <= i < |tokens| ==>
                 && out[i].text == tokens[i].text && out[i].lemmaText == tokens[i].lemmaText
                 && InputOf(tokens[i], lemmaUsed).Some? && out[i].shape.Some?
                 && ShapeOf(getType, InputOf(tokens[i], lemmaUsed).value) == Ok(out[i].shape.value)
  {
    if tokens != [] {
      var tail := tokens[1..];
      ShapedTokensSpec(getType, tail, lemmaUsed);
      var out := ShapedTokens(getType, tokens, lemmaUsed).value;
      var rest := ShapedTokens(getType, tail, lemmaUsed).value;
      var shape := ShapeOf(getType, InputOf(tokens[0], lemmaUsed).value).value;
      assert out == [tokens[0].(shape := Some(shape))] + rest;
      forall i | 0 <= i < |tokens|
        ensures && out[i].text == tokens[i].text && out[i].lemmaText == tokens[i].lemmaText
                && InputOf(tokens[i], lemmaUsed).Some? && out[i].shape.Some?
                && ShapeOf(getType, InputOf(tokens[i], lemmaUsed).value) == Ok(out[i].shape.value)
      {
        if i > 0 {
          assert tokens[i] == tail[i - 1] && out[i] == rest[i - 1];
        }
      }
    }
  }

  /** `out` followed by the shaped tokens from index `i` on. */
  function ShapedFrom(getType: int -> int, tokens: seq<Token>, i: nat, lemmaUsed: bool, out: seq<Token>): Result<seq<Token>, AnnotateError>
    requires i <= |tokens|
  {
    match ShapedTokens(getType, tokens[i..], lemmaUsed)
    case Ok(rest) => Ok(out + rest)
    case Err(e) => Err(e)
  }

  /** One step of the token loop: a missing input or a failed shape is the
      error of the remainder; otherwise the shaped token moves to `out`. */
  lemma ShapedFromStep(getType: int -> int, tokens: seq<Token>, i: nat, lemmaUsed: bool, out: seq<Token>)
    requires i < |tokens|
    ensures InputOf(tokens[i], lemmaUsed).None? ==>
      ShapedFrom(getType, tokens, i, lemmaUsed, out) == Err(ShapeFailed(MissingInput))
    ensures InputOf(tokens[i], lemmaUsed).Some? && ShapeOf(getType, InputOf(tokens[i], lemmaUsed).value).Err? ==>
      ShapedFrom(getType, tokens, i, lemmaUsed, out) == Err(ShapeFailed(ShapeOf(getType, InputOf(tokens[i], lemmaUsed).value).error))
    ensures InputOf(tokens[i], lemmaUsed).Some? && ShapeOf(getType, InputOf(tokens[i], lemmaUsed).value).Ok? ==>
      ShapedFrom(getType, tokens, i, lemmaUsed, out) ==
      ShapedFrom(getType, tokens, i + 1, lemmaUsed, out + [tokens[i].(shape := Some(ShapeOf(getType, InputOf(tokens[i], lemmaUsed).value).value))])
  {
    var t := tokens[i..];
    assert t[0] == tokens[i] && t[1..] == tokens[i + 1..];
    match InputOf(tokens[i], lemmaUsed)
    case None =>
    case Some(input) =>
      match ShapeOf(getType, input)
      case Err(_) =>
      case Ok(shape) =>
        var shaped := tokens[i].(shape := Some(shape));
        match ShapedTokens(getType, tokens[i + 1..], lemmaUsed)
        case Err(_) =>
        case Ok(rest) =>
          assert out + ([shaped] + rest) == (out + [shaped]) + rest;
  }

  class CharacterShapeAnnotator {
    var lemmaUsed: bool

    constructor()
      ensures lemmaUsed == LemmaUsedDefault
    {
      lemmaUsed := LemmaUsedDefault;
    }

    /** `configure`: only a present key changes the setting. */
    method Configure(props: map<string, string>)
      modifies this
      ensures LemmaUsedKey in props ==> lemmaUsed == ParseBoolean(props[LemmaUsedKey])
      ensures LemmaUsedKey !in props ==> lemmaUsed == old(lemmaUsed)
    {
      if LemmaUsedKey in props {
        SetLemmaUsed(ParseBoolean(props[LemmaUsedKey]));
      }
    }

    method SetLemmaUsed(value: bool)
      modifies this
      ensures lemmaUsed == value
    {
      lemmaUsed := value;
    }

    /** `getRequiredAnnotations`. */
    function RequiredAnnotations(): (r: set<Requirement>)
      reads this
      ensures TokensRequired in r
      ensures LemmasRequired in r <==> lemmaUsed
    {
      if lemmaUsed then {TokensRequired, LemmasRequired} else {TokensRequired}
    }

    /** `annotate`: refuse a document without tokens, or without lemmas when
      lemmas are used; then shape every token in order. */
    method Annotate(getType: int -> int, doc: Document) returns (r: Result<seq<Token>, AnnotateError>)
      ensures doc.tokens.None? ==> r == Err(MissingTokens)
      ensures doc.tokens.Some? && lemmaUsed && !doc.hasLemmas ==> r == Err(MissingLemmas)
      ensures doc.tokens.Some? && (!lemmaUsed || doc.hasLemmas) ==> r == ShapedTokens(getType, doc.tokens.value, lemmaUsed)
    {
      if doc.tokens.None? {
        return Err(MissingTokens);
      }
      if lemmaUsed && !doc.hasLemmas {
        return Err(MissingLemmas);
      }
      var tokens := doc.tokens.value;
      var out: seq<Token> := [];
      var i := 0;
      assert ShapedTokens(getType, tokens, lemmaUsed) == ShapedFrom(getType, tokens, 0, lemmaUsed, out) by {
        assert tokens[0..] == tokens;
        match ShapedTokens(getType, tokens, lemmaUsed)
        case Err(_) =>
        case Ok(rest) => assert out + rest == rest;
      }
      while i < |tokens|
        invariant 0 <= i <= |tokens|
        invariant ShapedTokens(getType, tokens, lemmaUsed) == ShapedFrom(getType, tokens, i, lemmaUsed, out)
      {
        var token := tokens[i];
        var input := if lemmaUsed then token.lemmaText else token.text;
        ShapedFromStep(getType, tokens, i, lemmaUsed, out);
        if input.None? {
          return Err(ShapeFailed(MissingInput));
        }
        var shape := Shape(getType, input.value);
        if shape.Err? {
          return Err(ShapeFailed(shape.error));
        }
        out := out + [token.(shape := Some(shape.value))];
        i := i + 1;
      }
      assert tokens[i..] == [] && out + [] == out;
      r := Ok(out);
    }
  }
}
