// `JsonUtil`: a linked document becomes a JSON array of text pieces. Tokens
// are chunked into maximal runs of equal (entity id, entity type); each chunk
// becomes an object carrying its id and type, the text between chunks
// becomes plain objects, and every text is XML-escaped.
module JsonUtil {
  import opened Wrappers

  /** A token with its optional entity id and named-entity type and its
      character offsets (`end` exclusive). */
  datatype Token = Token(id: Option<string>, ner: Option<string>, begin: nat, end: nat)

  /** The (entity id, entity type) pair that decides chunk boundaries. */
  datatype Key = Key(id: Option<string>, ner: Option<string>)

  function KeyOf(t: Token): Key
  {
    Key(t.id, t.ner)
  }

  /** A piece of the document text, with the id and type of its chunk; gaps
      between chunks have neither. */
  datatype Piece = Piece(text: string, id: Option<string>, ner: Option<string>)

  /** One JSON object as `writeJsonObj` writes it. */
  datatype JsonObject = JsonObject(text: string, id: Option<string>, url: Option<string>, ner: Option<string>)

  const FreebaseViewPrefix := "http://www.freebase.com/view"

  // ------------------------------------------------------------ chunking

  /** One step of the chunking: the token joins the last chunk when its key
      is that of the chunk's last token, and opens a new chunk otherwise. */
  function Extend(cs: seq<seq<Token>>, t: Token): (r: seq<seq<Token>>)
    ensures r != [] && r[|r| - 1] != [] && r[|r| - 1][|r[|r| - 1]| - 1] == t
  {
    if cs != [] && cs[|cs| - 1] != [] && KeyOf(cs[|cs| - 1][|cs[|cs| - 1]| - 1]) == KeyOf(t)
    then cs[..|cs| - 1] + [cs[|cs| - 1] + [t]]
    else cs + [[t]]
  }

  /** The chunks of `tokens`: each maximal run of tokens with equal keys. */
  function Chunks(tokens: seq<Token>): (r: seq<seq<Token>>)
    ensures r == [] <==> tokens == []
  {
    if tokens == [] then [] else Extend(Chunks(tokens[..|tokens| - 1]), tokens[|tokens| - 1])
  }

  function Flatten<T>(chunks: seq<seq<T>>): seq<T>
  {
    if chunks == [] then [] else Flatten(chunks[..|chunks| - 1]) + chunks[|chunks| - 1]
  }

  lemma {:induction false} FlattenAppend<T>(a: seq<seq<T>>, b: seq<seq<T>>)
    ensures Flatten(a + b) == Flatten(a) + Flatten(b)
    decreases |b|
  {
    if b == [] {
      assert a + b == a;
    } else {
      var init, last := b[..|b| - 1], b[|b| - 1];
      assert (a + b)[..|a + b| - 1] == a + init;
      assert (a + b)[|a + b| - 1] == last;
      FlattenAppend(a, init);
      assert Flatten(a + b) == Flatten(a + init) + last;
      assert Flatten(b) == Flatten(init) + last;
    }
  }

  /** Every chunk is non-empty, holds tokens of one key, and the last token
      of each chunk has another key than the first of the next. */
  ghost predicate WellChunked(chunks: seq<seq<Token>>)
  {
    && (forall i :: 0 <= i < |chunks| ==> chunks[i] != [])
    && (forall i, j :: 0 <= i < |chunks| && 0 <= j < |chunks[i]| ==> KeyOf(chunks[i][j]) == KeyOf(chunks[i][0]))
    && (forall i :: 0 < i < |chunks| ==> Boundary(chunks[i - 1], chunks[i]))
  }

  /** The key changes from the end of `a` to the start of `b`. */
  predicate Boundary(a: seq<Token>, b: seq<Token>)
  {
    a != [] && b != [] && KeyOf(a[|a| - 1]) != KeyOf(b[0])
  }

  /** Extending adds the token at the end of the flattened chunks. */
  lemma ExtendFlatten(cs: seq<seq<Token>>, t: Token)
    ensures Flatten(Extend(cs, t)) == Flatten(cs) + [t]
  {
    if cs != [] && cs[|cs| - 1] != [] && KeyOf(cs[|cs| - 1][|cs[|cs| - 1]| - 1]) == KeyOf(t) {
      var last := cs[|cs| - 1];
      var front := cs[..|cs| - 1];
      assert cs == front + [last];
      FlattenAppend(front, [last]);
      FlattenAppend(front, [last + [t]]);
      assert Flatten([last]) == last by {
        assert [last][..0] == [];
      }
      assert Flatten([last + [t]]) == last + [t] by {
        assert [last + [t]][..0] == [];
      }
    } else {
      FlattenAppend(cs, [[t]]);
      assert Flatten([[t]]) == [t] by {
        assert [[t]][..0] == [];
      }
    }
  }

  /** Extending keeps the chunks well formed. */
  lemma ExtendWellChunked(cs: seq<seq<Token>>, t: Token)
    requires WellChunked(cs)
    ensures WellChunked(Extend(cs, t))
  {
    var r := Extend(cs, t);
    if cs != [] && cs[|cs| - 1] != [] && KeyOf(cs[|cs| - 1][|cs[|cs| - 1]| - 1]) == KeyOf(t) {
      assert forall i :: 0 <= i < |cs| - 1 ==> r[i] == cs[i];
      assert r[|r| - 1] == cs[|cs| - 1] + [t];
    } else {
      assert forall i :: 0 <= i < |cs| ==> r[i] == cs[i];
    }
  }

  /** Concatenating the chunks gives back the tokens. */
  lemma {:induction false} ChunksFlatten(tokens: seq<Token>)
    ensures Flatten(Chunks(tokens)) == tokens
  {
    if tokens != [] {
      var init := tokens[..|tokens| - 1];
      ChunksFlatten(init);
      ExtendFlatten(Chunks(init), tokens[|tokens| - 1]);
      assert init + [tokens[|tokens| - 1]] == tokens;
    }
  }

  /** Each chunk is a maximal run of tokens of one key. */
  lemma {:induction false} ChunksWellChunked(tokens: seq<Token>)
    ensures WellChunked(Chunks(tokens))
  {
    if tokens != [] {
      ChunksWellChunked(tokens[..|tokens| - 1]);
      ExtendWellChunked(Chunks(tokens[..|tokens| - 1]), tokens[|tokens| - 1]);
    }
  }

  /** Extending chunks whose last chunk is `chunk`. */
  lemma ExtendLast(chunks: seq<seq<Token>>, chunk: seq<Token>, t: Token)
    requires chunk != []
    ensures KeyOf(chunk[|chunk| - 1]) == KeyOf(t) ==> Extend(chunks + [chunk], t) == chunks + [chunk + [t]]
    ensures KeyOf(chunk[|chunk| - 1]) != KeyOf(t) ==> Extend(chunks + [chunk], t) == chunks + [chunk] + [[t]]
  {
    var cs := chunks + [chunk];
    assert cs[..|cs| - 1] == chunks && cs[|cs| - 1] == chunk;
  }

  /** `getEntityChunks`: walk the tokens, closing the open chunk whenever the
      (id, type) pair changes. The previous pair starts out as (null, null). */
  method GetEntityChunks(tokens: seq<Token>) returns (chunks: seq<seq<Token>>)
    ensures chunks == Chunks(tokens)
  {
    chunks := [];
    var prev := Key(None, None);
    var chunk: seq<Token> := [];
    var i := 0;
    while i < |tokens|
      invariant 0 <= i <= |tokens|
      invariant i == 0 ==> chunks == [] && chunk == []
      invariant i > 0 ==> chunk != [] && prev == KeyOf(chunk[|chunk| - 1]) && chunks + [chunk] == Chunks(tokens[..i])
    {
      var next := tokens[i];
      assert tokens[..i + 1][..i] == tokens[..i] && tokens[..i + 1][i] == next;
      assert Chunks(tokens[..i + 1]) == Extend(Chunks(tokens[..i]), next);
      ghost var before := Chunks(tokens[..i]);
      if i > 0 {
        ExtendLast(chunks, chunk, next);
      } else {
        assert tokens[..i] == [];
        assert Extend([], next) == [[next]];
      }
      var entityChanged := prev != KeyOf(next);
      if entityChanged {
        if chunk != [] {
          chunks := chunks + [chunk];
        }
        chunk := [];
      }
      assert chunk == [] ==> chunk + [next] == [next];
      chunk := chunk + [next];
      prev := KeyOf(next);
      assert chunks + [chunk] == Extend(before, next);
      i := i + 1;
    }
    if chunk != [] {
      chunks := chunks + [chunk];
    }
    assert tokens[..i] == tokens;
  }

  // ------------------------------------------------------------ pieces

  datatype TextError = OutOfRange(begin: int, end: int)

  /** `r` with `p` written before its pieces. */
  function Prefixed(p: seq<Piece>, r: Result<seq<Piece>, TextError>): Result<seq<Piece>, TextError>
  {
    match r
    case Ok(rest) => Ok(p + rest)
    case Err(e) => Err(e)
  }

  lemma PrefixedAssoc(p: seq<Piece>, q: seq<Piece>, r: Result<seq<Piece>, TextError>)
    ensures Prefixed(p, Prefixed(q, r)) == Prefixed(p + q, r)
    ensures Prefixed([], r) == r
  {
    if r.Ok? {
      assert p + (q + r.value) == (p + q) + r.value;
      assert [] + r.value == r.value;
    }
  }

  /** The pieces of `writeEntityChunks` for `chunks`, followed by the gap up
      to the end of the text, given that the text before `prevEnd` has been
      written. A chunk whose span is not inside the text fails as
      `substring` does. */
  function PiecesFrom(text: string, chunks: seq<seq<Token>>, prevEnd: nat): Result<seq<Piece>, TextError>
    requires prevEnd <= |text|
  {
    if chunks == [] then
      Ok(if prevEnd < |text| then [Piece(text[prevEnd..], None, None)] else [])
    else if chunks[0] == [] then PiecesFrom(text, chunks[1..], prevEnd)
    else
      var start := Start(chunks[0]);
      var end := End(chunks[0]);
      if !(start <= end <= |text|) then Err(OutOfRange(start, end))
      else
        var gap := if start > prevEnd then [Piece(text[prevEnd..start], None, None)] else [];
        var piece := Piece(text[start..end], chunks[0][0].id, chunks[0][0].ner);
        Prefixed(gap + [piece], PiecesFrom(text, chunks[1..], end))
  }

  /** One non-empty chunk inside the text: the gap before it, then the chunk;
      an empty chunk is skipped. */
  lemma PiecesFromStep(text: string, chunks: seq<seq<Token>>, prevEnd: nat)
    requires prevEnd <= |text| && chunks != []
    ensures chunks[0] == [] ==> PiecesFrom(text, chunks, prevEnd) == PiecesFrom(text, chunks[1..], prevEnd)
    ensures chunks[0] != [] && !(Start(chunks[0]) <= End(chunks[0]) <= |text|) ==>
            PiecesFrom(text, chunks, prevEnd) == Err(OutOfRange(Start(chunks[0]), End(chunks[0])))
    ensures var start := Start(chunks[0]); var end := End(chunks[0]);
            chunks[0] != [] && start <= end <= |text| ==>
            PiecesFrom(text, chunks, prevEnd)
            == Prefixed((if start > prevEnd then [Piece(text[prevEnd..start], None, None)] else [])
                        + [Piece(text[start..end], chunks[0][0].id, chunks[0][0].ner)],
                        PiecesFrom(text, chunks[1..], end))
  {
  }

  /** The chunks follow each other through the text without overlapping. */
  ghost predicate Ordered(text: string, chunks: seq<seq<Token>>, from: nat)
  {
    && (forall i :: 0 <= i < |chunks| ==> chunks[i] != [])
    && (forall i :: 0 <= i < |chunks| ==> Start(chunks[i]) <= End(chunks[i]) <= |text|)
    && (|chunks| > 0 ==> from <= Start(chunks[0]))
    && (forall i :: 0 < i < |chunks| ==> End(chunks[i - 1]) <= Start(chunks[i]))
  }

  /** The begin offset of the chunk's first token, 0 for an empty chunk. */
  function Start(chunk: seq<Token>): nat
  {
    if chunk == [] then 0 else chunk[0].begin
  }

  /** The end offset of the chunk's last token, 0 for an empty chunk. */
  function End(chunk: seq<Token>): nat
  {
    if chunk == [] then 0 else chunk[|chunk| - 1].end
  }

  lemma OrderedTail(text: string, chunks: seq<seq<Token>>, from: nat)
    requires chunks != [] && Ordered(text, chunks, from)
    ensures Ordered(text, chunks[1..], End(chunks[0]))
  {
    assert forall i :: 0 <= i < |chunks| - 1 ==> chunks[1..][i] == chunks[i + 1];
  }

  function Texts(pieces: seq<Piece>): string
  {
    if pieces == [] then "" else pieces[0].text + Texts(pieces[1..])
  }

  lemma {:induction false} TextsAppend(a: seq<Piece>, b: seq<Piece>)
    ensures Texts(a + b) == Texts(a) + Texts(b)
  {
    if a == [] {
      assert a + b == b;
    } else {
      assert (a + b)[0] == a[0] && (a + b)[1..] == a[1..] + b;
      TextsAppend(a[1..], b);
    }
  }

  /** When the chunks are in text order and do not overlap, the plain gaps
      and the chunk texts together spell out the rest of the document. */
  lemma {:induction false} PiecesReconstructText(text: string, chunks: seq<seq<Token>>, prevEnd: nat)
    requires prevEnd <= |text| && Ordered(text, chunks, prevEnd)
    ensures PiecesFrom(text, chunks, prevEnd).Ok?
    ensures Texts(PiecesFrom(text, chunks, prevEnd).value) == text[prevEnd..]
    decreases |chunks|
  {
    if chunks == [] {
      if prevEnd < |text| {
        assert Texts([Piece(text[prevEnd..], None, None)]) == text[prevEnd..] + Texts([]);
      }
    } else {
      var start := Start(chunks[0]);
      var end := End(chunks[0]);
      OrderedTail(text, chunks, prevEnd);
      PiecesReconstructText(text, chunks[1..], end);
      PiecesFromStep(text, chunks, prevEnd);
      var rest := PiecesFrom(text, chunks[1..], end).value;
      var gap := if start > prevEnd then [Piece(text[prevEnd..start], None, None)] else [];
      var piece := Piece(text[start..end], chunks[0][0].id, chunks[0][0].ner);
      GapPieceText(text, prevEnd, start, end, gap, piece, rest);
    }
  }

  lemma GapPieceText(text: string, prevEnd: nat, start: nat, end: nat, gap: seq<Piece>, piece: Piece, rest: seq<Piece>)
    requires prevEnd <= start <= end <= |text|
    requires gap == if start > prevEnd then [Piece(text[prevEnd..start], None, None)] else []
    requires piece.text == text[start..end] && Texts(rest) == text[end..]
    ensures Texts(gap + [piece] + rest) == text[prevEnd..]
  {
    TextsAppend(gap + [piece], rest);
    TextsAppend(gap, [piece]);
    assert Texts([piece]) == text[start..end] + Texts([]);
    assert Texts(gap) == text[prevEnd..start] by {
      if start > prevEnd {
        assert Texts(gap) == text[prevEnd..start] + Texts([]);
      }
    }
    assert text[prevEnd..] == text[prevEnd..start] + text[start..end] + text[end..];
  }

  /** Tokens lie inside the text, in order and without overlapping, as a
      tokenizer leaves them. */
  ghost predicate TokensOrdered(text: string, tokens: seq<Token>)
  {
    && (forall i :: 0 <= i < |tokens| ==> tokens[i].begin <= tokens[i].end <= |text|)
    && (forall i :: 0 < i < |tokens| ==> tokens[i - 1].end <= tokens[i].begin)
  }

  lemma ExtendOrdered(text: string, cs: seq<seq<Token>>, t: Token)
    requires Ordered(text, cs, 0) && t.begin <= t.end <= |text|
    requires cs != [] ==> End(cs[|cs| - 1]) <= t.begin
    ensures Ordered(text, Extend(cs, t), 0)
  {
    var r := Extend(cs, t);
    if cs != [] && cs[|cs| - 1] != [] && KeyOf(cs[|cs| - 1][|cs[|cs| - 1]| - 1]) == KeyOf(t) {
      assert forall i :: 0 <= i < |cs| - 1 ==> r[i] == cs[i];
      assert r[|r| - 1] == cs[|cs| - 1] + [t];
    } else {
      assert forall i :: 0 <= i < |cs| ==> r[i] == cs[i];
    }
  }

  /** Ordered tokens give ordered chunks. */
  lemma {:induction false} ChunksOrdered(text: string, tokens: seq<Token>)
    requires TokensOrdered(text, tokens)
    ensures Ordered(text, Chunks(tokens), 0)
    ensures tokens != [] ==> var cs := Chunks(tokens); End(cs[|cs| - 1]) == tokens[|tokens| - 1].end
  {
    if tokens != [] {
      var init := tokens[..|tokens| - 1];
      assert TokensOrdered(text, init);
      ChunksOrdered(text, init);
      ExtendOrdered(text, Chunks(init), tokens[|tokens| - 1]);
    }
  }

  /** For ordered tokens the document converts without error, and the texts
      of its objects, before escaping, spell out the whole document. */
  lemma AnnotationCoversText(text: string, tokens: seq<Token>)
    requires TokensOrdered(text, tokens)
    ensures PiecesFrom(text, Chunks(tokens), 0).Ok?
    ensures Texts(PiecesFrom(text, Chunks(tokens), 0).value) == text
    ensures AnnotationToJson(text, tokens).Ok?
  {
    ChunksOrdered(text, tokens);
    PiecesReconstructText(text, Chunks(tokens), 0);
    assert text[0..] == text;
  }

  /** `writeEntityChunks`: the gap before each chunk when there is one, the
      chunk itself, and the rest of the text after the last chunk. */
  method WriteEntityChunks(text: string, chunks: seq<seq<Token>>) returns (r: Result<seq<Piece>, TextError>)
    ensures r == PiecesFrom(text, chunks, 0)
  {
    var pieces: seq<Piece> := [];
    var prevEnd := 0;
    var i := 0;
    assert chunks[0..] == chunks;
    PrefixedAssoc([], [], PiecesFrom(text, chunks, 0));
    while i < |chunks|
      invariant 0 <= i <= |chunks| && prevEnd <= |text|
      invariant PiecesFrom(text, chunks, 0) == Prefixed(pieces, PiecesFrom(text, chunks[i..], prevEnd))
    {
      var chunk := chunks[i];
      assert chunks[i..][0] == chunk && chunks[i..][1..] == chunks[i + 1..];
      PiecesFromStep(text, chunks[i..], prevEnd);
      if chunk == [] {
        assert PiecesFrom(text, chunks[i..], prevEnd) == PiecesFrom(text, chunks[i + 1..], prevEnd);
        i := i + 1;
        continue;
      }
      var start := chunk[0].begin;
      var end := chunk[|chunk| - 1].end;
      if !(start <= end <= |text|) {
        return Err(OutOfRange(start, end));
      }
      var gap := if start > prevEnd then [Piece(text[prevEnd..start], None, None)] else [];
      var piece := Piece(text[start..end], chunk[0].id, chunk[0].ner);
      assert PiecesFrom(text, chunks[i..], prevEnd) == Prefixed(gap + [piece], PiecesFrom(text, chunks[i + 1..], end));
      PrefixedAssoc(pieces, gap + [piece], PiecesFrom(text, chunks[i + 1..], end));
      pieces := pieces + (gap + [piece]);
      prevEnd := end;
      i := i + 1;
    }
    assert chunks[i..] == [];
    if prevEnd < |text| {
      pieces := pieces + [Piece(text[prevEnd..], None, None)];
    }
    assert pieces + [] == pieces;
    r := Ok(pieces);
  }

  // ------------------------------------------------------------ XML escaping

  predicate Special(c: char)
  {
    c == '<' || c == '>' || c == '&'
  }

  function Escape(c: char): string
  {
    if c == '<' then "&lt;" else if c == '>' then "&gt;" else if c == '&' then "&amp;" else [c]
  }

  /** `xmlEncode`: '<', '>' and '&' become "&lt;", "&gt;" and "&amp;";
      every other character is copied. */
  function XmlEncode(s: string): string
  {
    if s == [] then "" else Escape(s[0]) + XmlEncode(s[1..])
  }

  lemma {:induction false} XmlEncodeAppend(a: string, b: string)
    ensures XmlEncode(a + b) == XmlEncode(a) + XmlEncode(b)
  {
    if a == [] {
      assert a + b == b;
    } else {
      assert (a + b)[0] == a[0] && (a + b)[1..] == a[1..] + b;
      XmlEncodeAppend(a[1..], b);
    }
  }

  /** A string with nothing to escape is its own encoding. */
  lemma {:induction false} XmlEncodeIdentity(s: string)
    requires forall i :: 0 <= i < |s| ==> !Special(s[i])
    ensures XmlEncode(s) == s
  {
    if s != [] {
      XmlEncodeIdentity(s[1..]);
    }
  }

  /** The encoding holds no raw '<' or '>', and every '&' in it starts one of
      the three escapes. */
  lemma {:induction false} XmlEncodeSafe(s: string)
    ensures forall i :: 0 <= i < |XmlEncode(s)| ==> XmlEncode(s)[i] != '<' && XmlEncode(s)[i] != '>'
    ensures forall i :: 0 <= i < |XmlEncode(s)| && XmlEncode(s)[i] == '&' ==> EscapeAt(XmlEncode(s), i)
  {
    if s != [] {
      XmlEncodeSafe(s[1..]);
      var e := Escape(s[0]);
      var rest := XmlEncode(s[1..]);
      assert XmlEncode(s) == e + rest;
      forall i | 0 <= i < |e + rest| && (e + rest)[i] == '&'
        ensures EscapeAt(e + rest, i)
      {
        if i >= |e| {
          assert (e + rest)[i..] == rest[i - |e|..];
        } else {
          assert (e + rest)[i..] == e + rest;
        }
      }
    }
  }

  /** An escape sequence starts at position `i`. */
  predicate EscapeAt(s: string, i: nat)
  {
    i <= |s| && (StartsWith(s[i..], "&lt;") || StartsWith(s[i..], "&gt;") || StartsWith(s[i..], "&amp;"))
  }

  predicate StartsWith(s: string, p: string)
  {
    |p| <= |s| && s[..|p|] == p
  }

  /** Undo the escaping. */
  function XmlDecode(s: string): string
    decreases |s|
  {
    if s == [] then ""
    else if StartsWith(s, "&lt;") then "<" + XmlDecode(s[4..])
    else if StartsWith(s, "&gt;") then ">" + XmlDecode(s[4..])
    else if StartsWith(s, "&amp;") then "&" + XmlDecode(s[5..])
    else [s[0]] + XmlDecode(s[1..])
  }

  lemma StartsWithHead(s: string, p: string)
    requires p != [] && s != []
    ensures StartsWith(s, p) ==> s[0] == p[0]
  {
    if StartsWith(s, p) {
      assert s[..|p|][0] == s[0];
    }
  }

  /** Decoding an escaped character followed by more text. */
  lemma DecodeEscape(c: char, rest: string)
    ensures XmlDecode(Escape(c) + rest) == [c] + XmlDecode(rest)
  {
    var e := Escape(c) + rest;
    if c == '<' {
      assert e[..4] == "&lt;" && e[4..] == rest;
    } else if c == '>' {
      assert e[..4] == "&gt;" && e[4..] == rest;
    } else if c == '&' {
      assert e[..4] == "&amp" && e[..5] == "&amp;" && e[5..] == rest;
    } else {
      assert e[0] == c && e[1..] == rest;
      StartsWithHead(e, "&lt;");
      StartsWithHead(e, "&gt;");
      StartsWithHead(e, "&amp;");
    }
  }

  /** Decoding the encoding gives back the input. */
  lemma {:induction false} XmlDecodeEncode(s: string)
    ensures XmlDecode(XmlEncode(s)) == s
  {
    if s != [] {
      XmlDecodeEncode(s[1..]);
      DecodeEscape(s[0], XmlEncode(s[1..]));
      assert [s[0]] + s[1..] == s;
    }
  }

  /** The first loop of `xmlEncode`: the index of the first character that
      needs escaping, or the length. */
  method FirstSpecial(s: string) returns (i: nat)
    ensures i <= |s| && (i < |s| ==> Special(s[i]))
    ensures forall k :: 0 <= k < i ==> !Special(s[k])
  {
    i := 0;
    while i < |s| && !Special(s[i])
      invariant i <= |s| && forall k :: 0 <= k < i ==> !Special(s[k])
    {
      i := i + 1;
    }
  }

  /** `xmlEncode`: return the input itself when nothing needs escaping,
      otherwise copy the untouched prefix and escape the rest. */
  method XmlEncodeMethod(s: string) returns (r: string)
    ensures r == XmlEncode(s)
  {
    var i := FirstSpecial(s);
    XmlEncodeIdentity(s[..i]);
    if i == |s| {
      assert s[..i] == s;
      return s;
    }
    var output := s[..i];
    while i < |s|
      invariant 0 <= i <= |s|
      invariant output == XmlEncode(s[..i])
    {
      XmlEncodeAppend(s[..i], [s[i]]);
      assert s[..i + 1] == s[..i] + [s[i]];
      assert XmlEncode([s[i]]) == Escape(s[i]) + XmlEncode([]);
      output := output + Escape(s[i]);
      i := i + 1;
    }
    assert s[..i] == s;
    r := output;
  }

  // ------------------------------------------------------------ objects

  /** `writeJsonObj`: the escaped text; with an id, the id and its Freebase
      view URL; and the type when there is one. */
  function ToJsonObject(p: Piece): (o: JsonObject)
    ensures o.text == XmlEncode(p.text) && o.id == p.id && o.ner == p.ner
    ensures o.url.Some? <==> p.id.Some?
    ensures p.id.Some? ==> o.url == Some(FreebaseViewPrefix + p.id.value)
  {
    JsonObject(XmlEncode(p.text), p.id, if p.id.Some? then Some(FreebaseViewPrefix + p.id.value) else None, p.ner)
  }

  /** `annotationToJson`: the objects of the document's array. */
  function AnnotationToJson(text: string, tokens: seq<Token>): Result<seq<JsonObject>, TextError>
  {
    match PiecesFrom(text, Chunks(tokens), 0)
    case Ok(pieces) => Ok(seq(|pieces|, i requires 0 <= i < |pieces| => ToJsonObject(pieces[i])))
    case Err(e) => Err(e)
  }

  /** An empty document is an empty array. */
  lemma EmptyDocument()
    ensures AnnotationToJson("", []) == Ok([])
  {
    assert PiecesFrom("", Chunks([]), 0) == Ok([]);
    var r := AnnotationToJson("", []);
    assert r.Ok? && |r.value| == 0;
  }

  /** Text outside every chunk becomes objects without id or type, so an
      entity's object is preceded by a plain one whenever text precedes it. */
  lemma EntityAfterGap(text: string, chunk: seq<Token>)
    requires chunk != [] && 0 < chunk[0].begin <= chunk[|chunk| - 1].end <= |text|
    ensures PiecesFrom(text, [chunk], 0).Ok?
    ensures var ps := PiecesFrom(text, [chunk], 0).value;
            |ps| >= 2 && ps[0] == Piece(text[..chunk[0].begin], None, None)
            && ps[1] == Piece(text[chunk[0].begin..chunk[|chunk| - 1].end], chunk[0].id, chunk[0].ner)
  {
    assert [chunk][1..] == [];
  }
}
