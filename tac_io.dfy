// `TacIO`: the tab-separated link rows of the TAC-KBP gold standards and
// system outputs in their 2009, 2010 and 2012 layouts, and the `Link` record
// they hold. A row is the array of column values the CSV reader delivers;
// splitting lines on tabs is the CSV library's and is not modelled.
module TacIO {
  import opened Wrappers
  import opened Text

  /** The entity types of a link. */
  datatype EntityType = PER | ORG | GPE | UKN

  /** The source genres of a query document. */
  datatype Genre = NW | WB | NG

  /** The exceptions of the link codec, one per cause. */
  datatype LinkError =
    | NoRows                        // `readNext()` gave no row: NullPointerException
    | WrongColumnCount(found: nat)  // the column-count `assert`, or the detection's AssertionError
    | NoWebColumn                   // neither column 4 nor 5 holds YES or NO
    | NoSuchConstant(name: string)  // `valueOf` of an unknown enum name
    | NotTruthy(value: string)      // `parseBoolean`'s NumberFormatException
    | EmptyId(id: string)           // `checkArgument` of the `Link` constructor
    | Absent                        // `Optional.get` of an unset field

  function EntityTypeName(t: EntityType): string
  {
    match t
    case PER => "PER"
    case ORG => "ORG"
    case GPE => "GPE"
    case UKN => "UKN"
  }

  /** `EntityType.valueOf`: the constant with exactly that name. */
  function EntityTypeOf(s: string): (r: Result<EntityType, LinkError>)
    ensures r.Ok? ==> EntityTypeName(r.value) == s
    ensures r.Err? ==> r.error == NoSuchConstant(s)
  {
    if s == "PER" then Ok(PER)
    else if s == "ORG" then Ok(ORG)
    else if s == "GPE" then Ok(GPE)
    else if s == "UKN" then Ok(UKN)
    else Err(NoSuchConstant(s))
  }

  lemma EntityTypeNameRoundTrip(t: EntityType)
    ensures EntityTypeOf(EntityTypeName(t)) == Ok(t)
  {
  }

  function GenreName(g: Genre): string
  {
    match g
    case NW => "NW"
    case WB => "WB"
    case NG => "NG"
  }

  /** `Genre.valueOf`: the constant with exactly that name. */
  function GenreOf(s: string): (r: Result<Genre, LinkError>)
    ensures r.Ok? ==> GenreName(r.value) == s
    ensures r.Err? ==> r.error == NoSuchConstant(s)
  {
    if s == "NW" then Ok(NW)
    else if s == "WB" then Ok(WB)
    else if s == "NG" then Ok(NG)
    else Err(NoSuchConstant(s))
  }

  lemma GenreNameRoundTrip(g: Genre)
    ensures GenreOf(GenreName(g)) == Ok(g)
  {
  }

  /** A gold-standard or system link. The web-search flag and the genre are
      absent in the 2009 layout. Equality of the datatype is `Link.equals`. */
  datatype Link = Link(
    queryId: string,
    entityNodeId: string,
    entityType: EntityType,
    webSearch: Option<bool>,
    sourceGenre: Option<Genre>)

  /** The identifiers `Link`'s constructor accepts. */
  predicate WellFormed(l: Link)
  {
    l.queryId != "" && l.entityNodeId != ""
  }

  /** The private `Link` constructor: both identifiers must be non-empty. */
  function NewLink(queryId: string, entityNodeId: string, entityType: EntityType,
                   webSearch: Option<bool>, sourceGenre: Option<Genre>): (r: Result<Link, LinkError>)
    ensures r.Ok? <==> queryId != "" && entityNodeId != ""
    ensures queryId == "" ==> r == Err(EmptyId(queryId))
    ensures queryId != "" && entityNodeId == "" ==> r == Err(EmptyId(entityNodeId))
    ensures r.Ok? ==> WellFormed(r.value) && r.value == Link(queryId, entityNodeId, entityType, webSearch, sourceGenre)
  {
    if queryId == "" then Err(EmptyId(queryId))
    else if entityNodeId == "" then Err(EmptyId(entityNodeId))
    else Ok(Link(queryId, entityNodeId, entityType, webSearch, sourceGenre))
  }

  /** `parseBoolean`: after trimming and lower-casing, `true`, `yes` and `1`
      are true, `false`, `no` and `0` false, and anything else fails. */
  function ParseBoolean(s: string): (r: Result<bool, LinkError>)
    ensures r.Err? ==> r.error == NotTruthy(s)
  {
    match TruthValue(Lower(Trim(s)))
    case Some(b) => Ok(b)
    case None => Err(NotTruthy(s))
  }

  /** The words `parseBoolean` accepts, once trimmed and lower-cased. */
  function TruthValue(t: string): Option<bool>
  {
    if t == "true" || t == "yes" || t == "1" then Some(true)
    else if t == "false" || t == "no" || t == "0" then Some(false)
    else None
  }

  /** The two spellings the writers use read back as the flag written. */
  lemma ParseBooleanWritten(b: bool)
    ensures ParseBoolean(YesNo(b)) == Ok(b)
  {
    var s := YesNo(b);
    TrimVisibleEnds(s);
    if b {
      assert Lower("YES") == "yes";
    } else {
      assert Lower("NO") == "no";
    }
  }

  /** Blanks around the value are ignored. */
  lemma ParseBooleanBlanks(pre: string, s: string, post: string)
    requires Blank(pre) && Blank(post) && s != [] && s[0] > ' ' && s[|s| - 1] > ' '
    ensures ParseBoolean(pre + s + post).Ok? <==> ParseBoolean(s).Ok?
    ensures ParseBoolean(s).Ok? ==> ParseBoolean(pre + s + post) == ParseBoolean(s)
  {
    TrimBlanks(pre, s, post);
    TrimVisibleEnds(s);
    ParseBooleanSameWord(pre + s + post, s);
  }

  lemma ParseBooleanSameWord(u: string, s: string)
    requires Trim(u) == Trim(s)
    ensures ParseBoolean(u).Ok? <==> ParseBoolean(s).Ok?
    ensures ParseBoolean(s).Ok? ==> ParseBoolean(u) == ParseBoolean(s)
  {
  }

  /** Letter case is ignored. */
  lemma ParseBooleanMixedCase()
    ensures ParseBoolean("Yes") == Ok(true)
  {
    TrimVisibleEnds("Yes");
    assert Lower("Yes") == "yes";
  }

  /** A word outside the six is refused. */
  lemma ParseBooleanRefuses()
    ensures ParseBoolean("y") == Err(NotTruthy("y"))
  {
    TrimVisibleEnds("y");
    assert Lower(Trim("y")) == "y";
    assert TruthValue("y") == None;
  }

  function YesNo(b: bool): string
  {
    if b then "YES" else "NO"
  }

  /** The three layouts. */
  datatype Format = Tac2009 | Tac2010 | Tac2012

  predicate IsYesNo(s: string)
  {
    s == "YES" || s == "NO"
  }

  /** `detectFormatFromLinks`, given the first row of the file (`None` for
      an empty file): three columns are the 2009 layout; of five columns,
      YES or NO in the fifth is the 2012 layout and in the fourth the 2010
      layout. */
  function DetectFormatFromLinks(first: Option<seq<string>>): (r: Result<Format, LinkError>)
    ensures first.None? ==> r == Err(NoRows)
    ensures first.Some? && |first.value| == 3 <==> r == Ok(Tac2009)
    ensures first.Some? && |first.value| == 5 && IsYesNo(first.value[4]) <==> r == Ok(Tac2012)
    ensures r == Ok(Tac2010) <==>
      first.Some? && |first.value| == 5 && !IsYesNo(first.value[4]) && IsYesNo(first.value[3])
    ensures first.Some? && |first.value| != 3 && |first.value| != 5 ==> r == Err(WrongColumnCount(|first.value|))
  {
    match first
    case None => Err(NoRows)
    case Some(values) =>
      if |values| == 3 then Ok(Tac2009)
      else if |values| == 5 then
        if IsYesNo(values[4]) then Ok(Tac2012)
        else if IsYesNo(values[3]) then Ok(Tac2010)
        else Err(NoWebColumn)
      else Err(WrongColumnCount(|values|))
  }

  function ColumnCount(f: Format): nat
  {
    if f == Tac2009 then 3 else 5
  }

  /** `parseLink` of each layout. The column-count `assert` is taken as
      enabled, as under the test runner. Columns are read left to right and
      the first failure is the result; the 2010 layout reads `WL` as `WB`. */
  function ParseLink(f: Format, values: seq<string>): (r: Result<Link, LinkError>)
    ensures |values| != ColumnCount(f) ==> r == Err(WrongColumnCount(|values|))
    ensures r.Ok? ==> WellFormed(r.value)
    ensures r.Ok? ==> && r.value.queryId == values[0] && r.value.entityNodeId == values[1]
                      && EntityTypeName(r.value.entityType) == values[2]
    ensures r.Ok? ==> (f == Tac2009 <==> r.value.webSearch.None? && r.value.sourceGenre.None?)
    ensures r.Ok? && f != Tac2009 ==> r.value.webSearch.Some? && r.value.sourceGenre.Some?
  {
    if |values| != ColumnCount(f) then Err(WrongColumnCount(|values|))
    else
      var queryId := values[0];
      var entityNodeId := values[1];
      match EntityTypeOf(values[2])
      case Err(e) => Err(e)
      case Ok(entityType) =>
        match f
        case Tac2009 => NewLink(queryId, entityNodeId, entityType, None, None)
        case Tac2010 =>
          (match ParseBoolean(values[3])
           case Err(e) => Err(e)
           case Ok(webUsed) =>
             match (if values[4] == "WL" then Ok(WB) else GenreOf(values[4]))
             case Err(e) => Err(e)
             case Ok(genre) => NewLink(queryId, entityNodeId, entityType, Some(webUsed), Some(genre)))
        case Tac2012 =>
          match GenreOf(values[3])
          case Err(e) => Err(e)
          case Ok(genre) =>
            match ParseBoolean(values[4])
            case Err(e) => Err(e)
            case Ok(webUsed) => NewLink(queryId, entityNodeId, entityType, Some(webUsed), Some(genre))
  }

  /** `writeLink` of each layout. The 2010 and 2012 layouts read the flag and
      the genre with `Optional.get`, which fails when they are unset; 2010
      writes `WB` as `WL`. */
  function WriteLink(f: Format, l: Link): (r: Result<seq<string>, LinkError>)
    ensures f == Tac2009 ==> r.Ok?
    ensures f != Tac2009 ==> (r.Ok? <==> l.webSearch.Some? && l.sourceGenre.Some?)
    ensures r.Err? ==> r.error == Absent
    ensures r.Ok? ==> |r.value| == ColumnCount(f)
  {
    match f
    case Tac2009 => Ok([l.queryId, l.entityNodeId, EntityTypeName(l.entityType)])
    case Tac2010 =>
      if l.webSearch.None? || l.sourceGenre.None? then Err(Absent)
      else
        var genre := if l.sourceGenre.value == WB then "WL" else GenreName(l.sourceGenre.value);
        Ok([l.queryId, l.entityNodeId, EntityTypeName(l.entityType), YesNo(l.webSearch.value), genre])
    case Tac2012 =>
      if l.webSearch.None? || l.sourceGenre.None? then Err(Absent)
      else
        Ok([l.queryId, l.entityNodeId, EntityTypeName(l.entityType),
            GenreName(l.sourceGenre.value), YesNo(l.webSearch.value)])
  }

  /** The links a layout can hold: well formed, with the 2010 and 2012
      fields set exactly when the layout has them. */
  predicate Fits(f: Format, l: Link)
  {
    WellFormed(l) && (f == Tac2009 <==> l.webSearch.None? && l.sourceGenre.None?)
    && (f != Tac2009 ==> l.webSearch.Some? && l.sourceGenre.Some?)
  }

  /** Writing a link its layout can hold and parsing the row gives the link
      back. */
  lemma WriteThenParse(f: Format, l: Link)
    requires Fits(f, l)
    ensures WriteLink(f, l).Ok? && ParseLink(f, WriteLink(f, l).value) == Ok(l)
  {
    EntityTypeNameRoundTrip(l.entityType);
    match f
    case Tac2009 =>
    case Tac2010 => WriteThenParse2010(l);
    case Tac2012 => WriteThenParse2012(l);
  }

  lemma WriteThenParse2010(l: Link)
    requires Fits(Tac2010, l)
    ensures WriteLink(Tac2010, l).Ok? && ParseLink(Tac2010, WriteLink(Tac2010, l).value) == Ok(l)
  {
    var w, g := l.webSearch.value, l.sourceGenre.value;
    var genre := if g == WB then "WL" else GenreName(g);
    var row := [l.queryId, l.entityNodeId, EntityTypeName(l.entityType), YesNo(w), genre];
    assert WriteLink(Tac2010, l) == Ok(row);
    EntityTypeNameRoundTrip(l.entityType);
    ParseBooleanWritten(w);
    GenreNameRoundTrip(g);
    assert (if genre == "WL" then Ok(WB) else GenreOf(genre)) == Ok(g);
  }

  lemma WriteThenParse2012(l: Link)
    requires Fits(Tac2012, l)
    ensures WriteLink(Tac2012, l).Ok? && ParseLink(Tac2012, WriteLink(Tac2012, l).value) == Ok(l)
  {
    var w, g := l.webSearch.value, l.sourceGenre.value;
    var row := [l.queryId, l.entityNodeId, EntityTypeName(l.entityType), GenreName(g), YesNo(w)];
    assert WriteLink(Tac2012, l) == Ok(row);
    EntityTypeNameRoundTrip(l.entityType);
    ParseBooleanWritten(w);
    GenreNameRoundTrip(g);
  }

  /** Every parsed link fits its layout, so writing it and parsing again is
      stable; the row written is the layout's canonical spelling. */
  lemma ParseThenWrite(f: Format, values: seq<string>)
    requires ParseLink(f, values).Ok?
    ensures Fits(f, ParseLink(f, values).value)
    ensures WriteLink(f, ParseLink(f, values).value).Ok?
    ensures ParseLink(f, WriteLink(f, ParseLink(f, values).value).value) == ParseLink(f, values)
  {
    WriteThenParse(f, ParseLink(f, values).value);
  }

  /** Every row a writer produces is detected as its own layout. */
  lemma DetectWrittenFormat(f: Format, l: Link)
    requires WriteLink(f, l).Ok?
    ensures DetectFormatFromLinks(Some(WriteLink(f, l).value)) == Ok(f)
  {
    var row := WriteLink(f, l).value;
    if f == Tac2010 {
      var g := l.sourceGenre.value;
      assert row[4] == (if g == WB then "WL" else GenreName(g));
      assert !IsYesNo(row[4]);
    }
  }

  /** The 2010 layout writes web genre as `WL` and reads `WL` back as it. */
  lemma WebGenre2010(queryId: string, entityNodeId: string, t: EntityType, webUsed: bool)
    requires queryId != "" && entityNodeId != ""
    ensures WriteLink(Tac2010, Link(queryId, entityNodeId, t, Some(webUsed), Some(WB)))
         == Ok([queryId, entityNodeId, EntityTypeName(t), YesNo(webUsed), "WL"])
    ensures ParseLink(Tac2010, [queryId, entityNodeId, EntityTypeName(t), YesNo(webUsed), "WL"])
         == Ok(Link(queryId, entityNodeId, t, Some(webUsed), Some(WB)))
  {
    WriteThenParse2010(Link(queryId, entityNodeId, t, Some(webUsed), Some(WB)));
  }

  /** The 2010 layout also reads the constant's own name `WB`. */
  lemma WebGenreName2010(queryId: string, entityNodeId: string, t: EntityType, webUsed: bool)
    requires queryId != "" && entityNodeId != ""
    ensures ParseLink(Tac2010, [queryId, entityNodeId, EntityTypeName(t), YesNo(webUsed), "WB"])
         == Ok(Link(queryId, entityNodeId, t, Some(webUsed), Some(WB)))
  {
    var row := [queryId, entityNodeId, EntityTypeName(t), YesNo(webUsed), "WB"];
    assert EntityTypeOf(row[2]) == Ok(t) by {
      EntityTypeNameRoundTrip(t);
    }
    assert ParseBoolean(row[3]) == Ok(webUsed) by {
      ParseBooleanWritten(webUsed);
    }
    assert row[4] != "WL" && GenreOf(row[4]) == Ok(WB) by {
      assert "WB"[1] != "WL"[1];
    }
  }

  /** The regression row of the 2010 link tests is detected as the 2010
      layout and read back. */
  lemma RegressionRow2010()
    ensures DetectFormatFromLinks(Some(["EL000281", "NIL0001", "GPE", "NO", "WL"])) == Ok(Tac2010)
    ensures ParseLink(Tac2010, ["EL000281", "NIL0001", "GPE", "NO", "WL"])
         == Ok(Link("EL000281", "NIL0001", GPE, Some(false), Some(WB)))
  {
    assert !IsYesNo("WL") by {
      assert "WL"[0] != "YES"[0] && "WL"[0] != "NO"[0];
    }
    WebGenre2010("EL000281", "NIL0001", GPE, false);
  }

  /** The regression row of the 2012 link tests is detected as the 2012
      layout, read back and written again. */
  lemma RegressionRow2012()
    ensures DetectFormatFromLinks(Some(["EL_ENG_00001", "E0800145", "PER", "WB", "NO"])) == Ok(Tac2012)
    ensures ParseLink(Tac2012, ["EL_ENG_00001", "E0800145", "PER", "WB", "NO"])
         == Ok(Link("EL_ENG_00001", "E0800145", PER, Some(false), Some(WB)))
    ensures WriteLink(Tac2012, Link("EL_ENG_00001", "E0800145", PER, Some(false), Some(WB)))
         == Ok(["EL_ENG_00001", "E0800145", "PER", "WB", "NO"])
  {
    ParseBooleanWritten(false);
  }

  /** A three-column row is detected as the 2009 layout. */
  lemma RegressionRow2009()
    ensures DetectFormatFromLinks(Some(["EL1", "NIL0001", "PER"])) == Ok(Tac2009)
  {
  }

  /** `readAll`: parse the rows one by one and stop at the first row that
      fails. */
  method ReadAll(f: Format, rows: seq<seq<string>>) returns (r: Result<seq<Link>, LinkError>)
    ensures r.Ok? <==> forall i :: 0 <= i < |rows| ==> ParseLink(f, rows[i]).Ok?
    ensures r.Ok? ==> |r.value| == |rows| && forall i :: 0 <= i < |rows| ==> ParseLink(f, rows[i]) == Ok(r.value[i])
    ensures r.Err? ==> exists i :: 0 <= i < |rows| && ParseLink(f, rows[i]) == Err(r.error)
                                 && forall j :: 0 <= j < i ==> ParseLink(f, rows[j]).Ok?
  {
    var links: seq<Link> := [];
    var i := 0;
    while i < |rows|
      invariant 0 <= i <= |rows| && |links| == i
      invariant forall j :: 0 <= j < i ==> ParseLink(f, rows[j]) == Ok(links[j])
    {
      var link := ParseLink(f, rows[i]);
      if link.Err? {
        assert forall j :: 0 <= j < i ==> ParseLink(f, rows[j]).Ok?;
        assert !ParseLink(f, rows[i]).Ok?;
        return Err(link.error);
      }
      links := links + [link.value];
      i := i + 1;
    }
    assert forall j :: 0 <= j < |rows| ==> ParseLink(f, rows[j]).Ok?;
    r := Ok(links);
  }

  /** `writeAll`: write the links one by one; the first link that cannot be
      written fails the call. */
  method WriteAll(f: Format, links: seq<Link>) returns (r: Result<seq<seq<string>>, LinkError>)
    ensures r.Ok? <==> forall i :: 0 <= i < |links| ==> WriteLink(f, links[i]).Ok?
    ensures r.Ok? ==> |r.value| == |links| && forall i :: 0 <= i < |links| ==> WriteLink(f, links[i]) == Ok(r.value[i])
    ensures r.Err? ==> r.error == Absent
  {
    var rows: seq<seq<string>> := [];
    var i := 0;
    while i < |links|
      invariant 0 <= i <= |links| && |rows| == i
      invariant forall j :: 0 <= j < i ==> WriteLink(f, links[j]) == Ok(rows[j])
    {
      var row := WriteLink(f, links[i]);
      if row.Err? {
        return Err(row.error);
      }
      rows := rows + [row.value];
      i := i + 1;
    }
    r := Ok(rows);
  }
}
