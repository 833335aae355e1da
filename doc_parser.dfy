// `Tac2013DocumentCollectionParser`: splits a file of concatenated,
// root-less `<doc ...> ... </doc>` documents into single documents. A
// character-level state machine: `character` holds the current character
// (`None` where the source has -1, at the end), `offset` its position, and `contentBuilder` everything
// read since the last document ended. The handler's callbacks are recorded
// as a sequence of events.
module DocumentParser {
  import opened Wrappers

  /** Guava's `CharMatcher.WHITESPACE`. */
  predicate IsWhitespace(c: char)
  {
    var n := c as int;
    n in {9, 10, 11, 12, 13, 32, 0x85, 0xA0, 0x1680, 0x2028, 0x2029, 0x202F, 0x205F, 0x3000}
    || 0x2000 <= n <= 0x200A
  }

  /** The character matchers the parser uses. */
  datatype Matcher = Is(c: char) | IsNot(c: char) | AnyOf(chars: string) | Whitespace

  predicate Matches(m: Matcher, c: char)
  {
    match m
    case Is(d) => c == d
    case IsNot(d) => c != d
    case AnyOf(cs) => c in cs
    case Whitespace => IsWhitespace(c)
  }

  /** `</doc>` in any letter case, one matcher per character. */
  const EndTag: seq<Matcher> := [Is('<'), Is('/'), AnyOf("Dd"), AnyOf("Oo"), AnyOf("Cc"), Is('>')]

  /** The first `n` characters of `t` from `k` match the first `n` of
      `</doc>`. */
  predicate TagPrefixAt(t: string, k: int, n: nat)
  {
    0 <= k && n <= 6 && k + n <= |t| && forall j :: 0 <= j < n ==> Matches(EndTag[j], t[k + j])
  }

  predicate EndTagAt(t: string, k: int)
  {
    TagPrefixAt(t, k, 6)
  }

  /** No end tag starts in `[a, b)`. */
  predicate NoEndTagIn(t: string, a: int, b: int)
  {
    forall k :: a <= k < b ==> !EndTagAt(t, k)
  }

  lemma NoEndTagJoin(t: string, a: int, b: int, c: int)
    requires a <= b <= c && NoEndTagIn(t, a, b) && NoEndTagIn(t, b, c)
    ensures NoEndTagIn(t, a, c)
  {
  }

  /** Offset `o` is just past an end tag at or after `from`, and no end tag
      starts between `from` and that one. */
  predicate FirstEndTagBefore(t: string, from: int, o: int)
  {
    from + 6 <= o && EndTagAt(t, o - 6) && NoEndTagIn(t, from, o - 6)
  }

  /** `<doc>`, or `<doc` followed by whitespace and anything but `>` up to
      the closing `>`, in any letter case. */
  predicate IsOpenTag(s: string)
  {
    && |s| >= 5
    && s[0] == '<' && s[1] in "Dd" && s[2] in "Oo" && s[3] in "Cc"
    && s[|s| - 1] == '>'
    && (|s| > 5 ==> IsWhitespace(s[4]) && forall k :: 4 <= k < |s| - 1 ==> s[k] != '>')
  }

  /** The callbacks of `Tac2013DocumentHandler`. An error carries the offset
      and the character found instead of the formatted message. */
  datatype Event =
    | DocumentStart(offset: int)
    | DocumentEnd(offset: int, content: string)
    | Error(offset: int, found: char)

  /** An `EOFException`. */
  datatype ParseError = UnexpectedEof

  /** The contents handed to `documentEnd`, in order, concatenated. */
  ghost function Documents(events: seq<Event>): string
  {
    if events == [] then ""
    else
      var last := events[|events| - 1];
      Documents(events[..|events| - 1]) + (if last.DocumentEnd? then last.content else "")
  }

  /** Ignoring errors, starts and ends alternate, beginning with a start;
      `open` says whether the last start still awaits its end. */
  ghost predicate Nested(events: seq<Event>, open: bool)
  {
    if events == [] then !open
    else
      var last := events[|events| - 1];
      var init := events[..|events| - 1];
      match last
      case Error(_, _) => Nested(init, open)
      case DocumentStart(_) => open && Nested(init, false)
      case DocumentEnd(_, _) => !open && Nested(init, true)
  }

  lemma DocumentsAppend(events: seq<Event>, e: Event)
    ensures Documents(events + [e]) == Documents(events) + (if e.DocumentEnd? then e.content else "")
  {
    assert (events + [e])[..|events|] == events;
  }

  lemma NestedAppend(events: seq<Event>, e: Event, open: bool)
    ensures e.Error? ==> (Nested(events + [e], open) <==> Nested(events, open))
    ensures e.DocumentStart? ==> (Nested(events + [e], true) <==> Nested(events, false))
    ensures e.DocumentEnd? ==> (Nested(events + [e], false) <==> Nested(events, true))
  {
    assert (events + [e])[..|events|] == events;
  }

  /** `after` is `before` with only errors appended. */
  ghost predicate ErrorsAppended(before: seq<Event>, after: seq<Event>)
  {
    |before| <= |after| && after[..|before|] == before
    && forall k :: |before| <= k < |after| ==> after[k].Error?
  }

  lemma ErrorsAppendedTrans(a: seq<Event>, b: seq<Event>, c: seq<Event>)
    requires ErrorsAppended(a, b) && ErrorsAppended(b, c)
    ensures ErrorsAppended(a, c)
  {
    assert c[..|a|] == c[..|b|][..|a|];
  }

  /** Errors appended after an event keep that event just after `before`. */
  lemma ErrorsAfterStart(before: seq<Event>, x: Event, after: seq<Event>)
    requires ErrorsAppended(before + [x], after)
    ensures |after| > |before| && after[..|before| + 1] == before + [x]
    ensures forall k :: |before| < k < |after| ==> after[k].Error?
  {
  }

  function Min(a: int, b: int): int
  {
    if a <= b then a else b
  }

  class DocumentCollectionParser {
    /** The whole text the reader delivers. */
    ghost const text: string
    /** What the reader has still to deliver. */
    var input: string
    var character: Option<char>
    var offset: int
    var content: string
    var events: seq<Event>

    /** The characters read once the current one at `o` has been read. */
    ghost function ReadUpTo(o: int): string
      requires -1 <= o <= |text|
    {
      text[..Min(o + 1, |text|)]
    }

    ghost predicate Valid()
      reads this
    {
      && -1 <= offset <= |text|
      && input == text[Min(offset + 1, |text|)..]
      && (0 <= offset ==> character == if offset < |text| then Some(text[offset]) else None)
      && Documents(events) + content == ReadUpTo(offset)
    }

    /** What was read since the last document ended. */
    ghost function Pending(): string
      reads this
      requires Valid()
    {
      ReadUpTo(offset)[|Documents(events)|..]
    }

    lemma ContentIsPending()
      requires Valid()
      ensures content == Pending()
    {
      assert (Documents(events) + content)[|Documents(events)|..] == content;
    }

    /** A parser over a reader that delivers `text`, before the first
        character is read. */
    constructor(text: string)
      ensures Valid() && this.text == text && offset == -1 && events == []
    {
      this.text := text;
      input := text;
      character := Some('\0');
      offset := -1;
      content := "";
      events := [];
    }

    /** `advance`: read the next character, count it and, unless the reader
        is exhausted, append it to the content. */
    method Advance()
      requires Valid() && offset < |text|
      modifies this
      ensures Valid() && offset == old(offset) + 1 && events == old(events)
    {
      if input == [] {
        assert offset + 1 == |text|;
        character := None;
        offset := offset + 1;
      } else {
        ghost var before := ReadUpTo(offset);
        assert offset + 1 < |text| && input[0] == text[offset + 1];
        assert input[1..] == text[offset + 2..];
        character := Some(input[0]);
        input := input[1..];
        offset := offset + 1;
        assert ReadUpTo(offset) == before + [text[offset]];
        content := content + [character.value];
      }
    }

    method IsEof() returns (b: bool)
      requires Valid() && 0 <= offset
      ensures b <==> offset == |text|
    {
      b := character == None;
    }

    /** `getCharacter`: the current character; at the end an
        `EOFException`. */
    method GetCharacter() returns (r: Result<char, ParseError>)
      requires Valid() && 0 <= offset
      ensures offset == |text| ==> r == Err(UnexpectedEof)
      ensures offset < |text| ==> r == Ok(text[offset])
    {
      if character == None {
        return Err(UnexpectedEof);
      }
      r := Ok(character.value);
    }

    /** `character(matcher)`: whether the current character matches. */
    method Character(m: Matcher) returns (r: Result<bool, ParseError>)
      requires Valid() && 0 <= offset
      ensures offset == |text| ==> r == Err(UnexpectedEof)
      ensures offset < |text| ==> r == Ok(Matches(m, text[offset]))
    {
      var c := GetCharacter();
      if c.Err? {
        return Err(c.error);
      }
      r := Ok(Matches(m, c.value));
    }

    /** `read(matcher)`: step over a matching character, or report an error
        and stay. */
    method ReadExpected(m: Matcher) returns (r: Outcome<ParseError>)
      requires Valid() && 0 <= offset
      modifies this
      ensures Valid()
      ensures old(offset) == |text| ==> r == Fail(UnexpectedEof) && offset == old(offset) && events == old(events)
      ensures old(offset) < |text| ==> r == Pass
      ensures old(offset) < |text| && Matches(m, text[old(offset)]) ==>
        offset == old(offset) + 1 && events == old(events)
      ensures old(offset) < |text| && !Matches(m, text[old(offset)]) ==>
        offset == old(offset) && events == old(events) + [Error(offset, text[offset])]
    {
      var matches := Character(m);
      if matches.Err? {
        return Fail(matches.error);
      }
      if matches.value {
        Advance();
      } else {
        var found := GetCharacter();
        DocumentsAppend(events, Error(offset, found.value));
        events := events + [Error(offset, found.value)];
      }
      r := Pass;
    }

    /** `advanceWhile(matcher)`: step over matching characters until one does
        not match or the reader is exhausted. */
    method AdvanceWhile(m: Matcher)
      requires Valid() && 0 <= offset
      modifies this
      ensures Valid() && events == old(events) && old(offset) <= offset
      ensures forall k :: old(offset) <= k < offset ==> Matches(m, text[k])
      ensures offset == |text| || !Matches(m, text[offset])
    {
      while true
        invariant Valid() && events == old(events) && old(offset) <= offset
        invariant forall k :: old(offset) <= k < offset ==> Matches(m, text[k])
        decreases |text| - offset
      {
        var eof := IsEof();
        if eof {
          return;
        }
        var matches := Character(m);
        if !matches.value {
          return;
        }
        Advance();
      }
    }

    /** `advanceIf(matcher)`: step over the current character when it
        matches; at the end an `EOFException`. */
    method AdvanceIf(m: Matcher) returns (r: Result<bool, ParseError>)
      requires Valid() && 0 <= offset
      modifies this
      ensures Valid() && events == old(events)
      ensures old(offset) == |text| ==> r == Err(UnexpectedEof) && offset == old(offset)
      ensures old(offset) < |text| ==>
        r == Ok(Matches(m, text[old(offset)])) && offset == old(offset) + (if r.value then 1 else 0)
    {
      var matches := Character(m);
      if matches.Err? {
        return Err(matches.error);
      }
      if matches.value {
        Advance();
        return Ok(true);
      }
      r := Ok(false);
    }

    /** The `advanceIf` chain of `readUntilDocumentEnd`: steps over the
        longest prefix of `</doc>` found here and returns its length. */
    method AdvanceOverEndTag() returns (r: Result<nat, ParseError>)
      requires Valid() && 0 <= offset
      modifies this
      ensures Valid() && events == old(events) && old(offset) <= offset
      ensures r.Err? ==> r.error == UnexpectedEof && offset == |text|
      ensures r.Ok? ==>
        && r.value <= 6 && offset == old(offset) + r.value
        && TagPrefixAt(text, old(offset), r.value)
        && (r.value < 6 ==> offset < |text| && !Matches(EndTag[r.value], text[offset]))
    {
      var k := 0;
      while k < 6
        invariant 0 <= k <= 6 && Valid() && events == old(events) && offset == old(offset) + k
        invariant TagPrefixAt(text, old(offset), k)
      {
        var step := AdvanceIf(EndTag[k]);
        if step.Err? {
          return Err(step.error);
        }
        if !step.value {
          return Ok(k);
        }
        k := k + 1;
      }
      r := Ok(6);
    }

    /** `advanceWhile(not('<'))` inside that loop: no end tag starts in
        what it steps over. */
    method AdvanceToOpening(ghost from: int)
      requires Valid() && 0 <= from <= offset && NoEndTagIn(text, from, offset)
      modifies this
      ensures Valid() && events == old(events) && old(offset) <= offset
      ensures NoEndTagIn(text, from, offset)
      ensures offset == |text| || text[offset] == '<'
    {
      ghost var o0 := offset;
      AdvanceWhile(IsNot('<'));
      NoTagWithoutOpening(o0, offset);
      NoEndTagJoin(text, from, o0, offset);
    }

    /** One round of the loop of `readUntilDocumentEnd`: step over
        characters up to the next `<`, then over the longest prefix of
        `</doc>` found there. Reports whether the whole tag was found. */
    method SkipOnce(ghost from: int) returns (r: Result<bool, ParseError>)
      requires Valid() && 0 <= from <= offset && NoEndTagIn(text, from, offset)
      modifies this
      ensures Valid() && events == old(events) && old(offset) <= offset
      ensures r.Err? ==> r.error == UnexpectedEof && offset == |text|
      ensures r == Ok(true) ==> FirstEndTagBefore(text, from, offset)
      ensures r == Ok(false) ==> old(offset) < offset && NoEndTagIn(text, from, offset)
    {
      AdvanceToOpening(from);
      ghost var o1 := offset;
      var matched := AdvanceOverEndTag();
      if matched.Err? {
        return Err(matched.error);
      }
      if matched.value == 6 {
        assert EndTagAt(text, offset - 6);
        r := Ok(true);
      } else {
        assert text[o1] == '<';
        PartialTagIsNoTag(o1, matched.value);
        NoEndTagJoin(text, from, o1, o1 + matched.value);
        r := Ok(false);
      }
    }

    /** The loop of `readUntilDocumentEnd`: step over everything up to and
        including the first `</doc>` (any letter case) at or after the
        current character. At the end of the input: `EOFException`. */
    method SkipPastEndTag() returns (r: Outcome<ParseError>)
      requires Valid() && 0 <= offset
      modifies this
      ensures Valid() && events == old(events)
      ensures r.Fail? ==> r.error == UnexpectedEof && offset == |text|
      ensures r.Pass? ==> FirstEndTagBefore(text, old(offset), offset)
    {
      var found := false;
      while !found
        invariant Valid() && old(offset) <= offset && events == old(events)
        invariant found ==> FirstEndTagBefore(text, old(offset), offset)
        invariant !found ==> NoEndTagIn(text, old(offset), offset)
        decreases |text| - offset, if found then 0 else 1
      {
        var step := SkipOnce(old(offset));
        if step.Err? {
          return Fail(step.error);
        }
        found := step.value;
      }
      r := Pass;
    }

    /** `readUntilDocumentEnd`: scan past the first `</doc>`, hand the
        content to `documentEnd` with the offset of the character after the
        tag, and start a new content. At the end of the input:
        `EOFException`. */
    method ReadUntilDocumentEnd() returns (r: Outcome<ParseError>)
      requires Valid() && 0 <= offset
      modifies this
      ensures Valid()
      ensures r.Fail? ==> r.error == UnexpectedEof && events == old(events) && offset == |text|
      ensures r.Pass? ==>
        && FirstEndTagBefore(text, old(offset), offset)
        && events == old(events) + [DocumentEnd(offset, ReadUpTo(offset)[|Documents(old(events))|..])]
        && content == ""
    {
      r := SkipPastEndTag();
      if r.Fail? {
        return;
      }
      ContentIsPending();
      DocumentsAppend(events, DocumentEnd(offset, content));
      events := events + [DocumentEnd(offset, content)];
      content := "";
    }

    /** No end tag starts at a character that is not `<`. */
    lemma NoTagWithoutOpening(a: int, b: int)
      requires 0 <= a <= b <= |text|
      requires forall k :: a <= k < b ==> Matches(IsNot('<'), text[k])
      ensures NoEndTagIn(text, a, b)
    {
      forall k | a <= k < b
        ensures !EndTagAt(text, k)
      {
        assert !Matches(EndTag[0], text[k + 0]);
      }
    }

    /** A `<` followed by a proper prefix of the rest of `</doc>` and a
        mismatch starts no end tag, and neither does any of the prefix's
        later characters, none of which is `<`. */
    lemma PartialTagIsNoTag(o: int, n: nat)
      requires 0 <= o && n < 6 && o + n < |text|
      requires TagPrefixAt(text, o, n)
      requires !Matches(EndTag[n], text[o + n])
      ensures NoEndTagIn(text, o, o + n)
    {
      forall k | o <= k < o + n
        ensures !EndTagAt(text, k)
      {
        if k == o {
          assert !Matches(EndTag[n], text[k + n]);
        } else {
          assert Matches(EndTag[k - o], text[o + (k - o)]);
          assert text[k] != '<';
          assert !Matches(EndTag[0], text[k + 0]);
        }
      }
    }

    /** Only errors were reported since `before`. */
    ghost predicate OnlyErrorsSince(before: seq<Event>)
      reads this
    {
      ErrorsAppended(before, events)
    }

    /** A run of `read(matcher)` calls, one per matcher in order. When no
        error is reported, each matcher matched the next character. */
    method ReadEach(ms: seq<Matcher>) returns (r: Outcome<ParseError>)
      requires Valid() && 0 <= offset
      modifies this
      ensures Valid() && old(offset) <= offset && OnlyErrorsSince(old(events))
      ensures r.Fail? ==> r.error == UnexpectedEof && offset == |text|
      ensures r.Pass? && |events| == |old(events)| ==>
        && offset == old(offset) + |ms| <= |text|
        && forall j :: 0 <= j < |ms| ==> Matches(ms[j], text[old(offset) + j])
    {
      var i := 0;
      while i < |ms|
        invariant 0 <= i <= |ms|
        invariant Valid() && old(offset) <= offset && OnlyErrorsSince(old(events))
        invariant |events| == |old(events)| ==>
          && offset == old(offset) + i <= |text|
          && forall j :: 0 <= j < i ==> Matches(ms[j], text[old(offset) + j])
      {
        ghost var e := events;
        r := ReadExpected(ms[i]);
        ErrorsAppendedTrans(old(events), e, events);
        if r.Fail? {
          return;
        }
        i := i + 1;
      }
      r := Pass;
    }

    /** Lines 98-101 of `parseDocumentOpenTag`: read `<doc` in any letter
        case, reporting each mismatch. */
    method ReadDocName() returns (r: Outcome<ParseError>)
      requires Valid() && 0 <= offset
      modifies this
      ensures Valid() && old(offset) <= offset && OnlyErrorsSince(old(events))
      ensures r.Fail? ==> r.error == UnexpectedEof && offset == |text|
      ensures r.Pass? && |events| == |old(events)| ==>
        && offset == old(offset) + 4
        && text[old(offset)] == '<' && text[old(offset) + 1] in "Dd"
        && text[old(offset) + 2] in "Oo" && text[old(offset) + 3] in "Cc"
    {
      ghost var o := offset;
      var name := [Is('<'), AnyOf("Dd"), AnyOf("Oo"), AnyOf("Cc")];
      r := ReadEach(name);
      if r.Pass? && |events| == |old(events)| {
        assert Matches(name[0], text[o + 0]) && Matches(name[1], text[o + 1]);
        assert Matches(name[2], text[o + 2]) && Matches(name[3], text[o + 3]);
      }
    }

    /** Lines 103-105 of `parseDocumentOpenTag`: after whitespace skip to the
        next `>`, then read the `>`. */
    method ReadTagRest() returns (r: Outcome<ParseError>)
      requires Valid() && 0 <= offset
      modifies this
      ensures Valid() && old(offset) <= offset && OnlyErrorsSince(old(events))
      ensures r.Fail? ==> r.error == UnexpectedEof && offset == |text|
      ensures r.Pass? && |events| == |old(events)| ==>
        && old(offset) < offset && text[offset - 1] == '>'
        && (old(offset) + 1 < offset ==>
              IsWhitespace(text[old(offset)]) && forall k :: old(offset) <= k < offset - 1 ==> text[k] != '>')
    {
      var space := Character(Whitespace);
      if space.Err? {
        return Fail(space.error);
      }
      if space.value {
        AdvanceWhile(IsNot('>'));
      }
      r := ReadExpected(Is('>'));
    }

    /** `parseDocumentOpenTag`: report `documentStart` at the current offset,
        then read `<doc`, any attributes and `>`. Every mismatch is reported as
        an error; when there is none, the characters read form an open tag. */
    method ParseDocumentOpenTag() returns (r: Outcome<ParseError>)
      requires Valid() && 0 <= offset
      modifies this
      ensures Valid() && old(offset) <= offset
      ensures |events| > |old(events)| && events[..|old(events)| + 1] == old(events) + [DocumentStart(old(offset))]
      ensures forall k :: |old(events)| < k < |events| ==> events[k].Error?
      ensures r.Fail? ==> r.error == UnexpectedEof && offset == |text|
      ensures r.Pass? && |events| == |old(events)| + 1 ==> IsOpenTag(text[old(offset)..offset])
    {
      ghost var start := offset;
      DocumentsAppend(events, DocumentStart(offset));
      events := events + [DocumentStart(offset)];
      ghost var e0 := events;
      r := ReadDocName();
      if r.Fail? {
        ErrorsAfterStart(old(events), DocumentStart(start), events);
        return;
      }
      ghost var e1 := events;
      ghost var afterName := offset;
      r := ReadTagRest();
      ErrorsAppendedTrans(e0, e1, events);
      ErrorsAfterStart(old(events), DocumentStart(start), events);
      if r.Pass? && |events| == |e0| {
        assert |e1| == |e0|;
        OpenTagShape(start, afterName, offset);
      }
    }

    lemma OpenTagShape(start: int, mid: int, end: int)
      requires 0 <= start && start + 4 == mid < end <= |text|
      requires text[start] == '<' && text[start + 1] in "Dd" && text[start + 2] in "Oo" && text[start + 3] in "Cc"
      requires text[end - 1] == '>'
      requires mid + 1 < end ==> IsWhitespace(text[mid]) && forall k :: mid <= k < end - 1 ==> text[k] != '>'
      ensures IsOpenTag(text[start..end])
    {
      var s := text[start..end];
      forall k | 4 <= k < |s| - 1
        ensures s[k] != '>'
      {
        assert s[k] == text[start + k];
      }
    }

    /** `parseDocument`: an open tag, then everything up to the end tag. */
    method ParseDocument() returns (r: Outcome<ParseError>)
      requires Valid() && 0 <= offset
      modifies this
      ensures Valid()
      ensures Nested(old(events), false) ==> Nested(events, r.Fail?)
      ensures r.Pass? ==> content == "" && old(offset) < offset
      ensures r.Fail? ==> r.error == UnexpectedEof && offset == |text|
    {
      ghost var e0 := events;
      r := ParseDocumentOpenTag();
      ghost var e1 := events;
      ErrorsKeepNesting(e0, e1);
      if r.Fail? {
        return;
      }
      r := ReadUntilDocumentEnd();
      if r.Pass? {
        NestedAppend(e1, events[|events| - 1], false);
      }
    }

    /** A start followed by errors only leaves the start open. */
    lemma ErrorsKeepNesting(e0: seq<Event>, e1: seq<Event>)
      requires |e1| > |e0| && e1[..|e0| + 1] == e0 + [e1[|e0|]] && e1[|e0|].DocumentStart?
      requires forall k :: |e0| < k < |e1| ==> e1[k].Error?
      ensures Nested(e0, false) ==> Nested(e1, true)
      decreases |e1|
    {
      if |e1| == |e0| + 1 {
        assert e1 == e0 + [e1[|e0|]];
        NestedAppend(e0, e1[|e0|], false);
      } else {
        var init := e1[..|e1| - 1];
        assert init[..|e0| + 1] == e1[..|e0| + 1];
        ErrorsKeepNesting(e0, init);
        assert e1 == init + [e1[|e1| - 1]];
        NestedAppend(init, e1[|e1| - 1], true);
      }
    }

    /** `parse`: read the first character, then split documents separated by
        whitespace until the input is exhausted. Starts and ends alternate;
        after a complete parse every character has been read and the
        document contents, followed by the trailing whitespace, make up the
        whole text. */
    method Parse() returns (r: Outcome<ParseError>)
      requires Valid() && offset == -1 && events == []
      modifies this
      ensures Valid()
      ensures Nested(events, false) || (r.Fail? && Nested(events, true))
      ensures r.Pass? ==> offset == |text| && Documents(events) + content == text
      ensures r.Pass? ==> forall k :: 0 <= k < |content| ==> IsWhitespace(content[k])
    {
      Advance();
      while character != None
        invariant Valid() && 0 <= offset && Nested(events, false)
        invariant forall k :: 0 <= k < |content| - (if offset < |text| then 1 else 0) ==> IsWhitespace(content[k])
        decreases |text| - offset
      {
        ghost var o0 := offset;
        AdvanceWhile(Whitespace);
        r := ParseDocument();
        if r.Fail? {
          return;
        }
        ghost var o1 := offset;
        AdvanceWhile(Whitespace);
        forall k | 0 <= k < |content| - (if offset < |text| then 1 else 0)
          ensures IsWhitespace(content[k])
        {
          assert content[k] == text[o1 + 1 + k];
        }
      }
      r := Pass;
    }
  }
}
