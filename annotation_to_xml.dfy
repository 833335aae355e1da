// `AnnotationToXML.Builder`: the simple names the XML serializer gives to
// annotation classes. A class name is shortened to its last dot-separated
// part (suffixes stripped, first letter lower-cased); earlier parts are
// prepended while the name is taken, and a number is appended when every
// part has been used.
module AnnotationToXml {
  import opened Wrappers
  import Text

  /** A class's canonical name as its '.'-separated parts, every one of
      them non-empty, as the names of Java classes are. */
  type ClassName = parts: seq<string> | |parts| > 0 && forall i :: 0 <= i < |parts| ==> parts[i] != [] witness ["A"]

  predicate EndsWith(s: string, suffix: string)
  {
    |suffix| <= |s| && s[|s| - |suffix|..] == suffix
  }

  /** One suffix is removed when the part ends with it and is strictly
      longer than it. */
  function StripSuffix(part: string, suffix: string): string
  {
    if EndsWith(part, suffix) && |part| > |suffix| then part[..|part| - |suffix|] else part
  }

  /** The suffixes are tried one after the other, in the set's iteration
      order, each on the result of the previous ones. */
  function StripSuffixes(part: string, suffixes: seq<string>): string
    decreases |suffixes|
  {
    if suffixes == [] then part else StripSuffixes(StripSuffix(part, suffixes[0]), suffixes[1..])
  }

  predicate IsUpper(c: char)
  {
    'A' <= c <= 'Z'
  }

  /** The first character is lower-cased; the rest is kept. */
  function LowerFirst(part: string): (r: string)
    requires part != []
    ensures |r| == |part| && r[1..] == part[1..]
    ensures !IsUpper(r[0]) && (IsUpper(part[0]) || r[0] == part[0])
  {
    [Text.LowerChar(part[0])] + part[1..]
  }

  function Simplify(part: string, suffixes: seq<string>): string
    requires part != []
  {
    StripSuffixesKeepsPrefix(part, suffixes);
    LowerFirst(StripSuffixes(part, suffixes))
  }

  /** Every part of the class name, simplified. */
  function SimplifiedParts(name: ClassName, suffixes: seq<string>): (r: seq<string>)
    ensures |r| == |name|
    ensures forall i :: 0 <= i < |r| ==> r[i] == Simplify(name[i], suffixes) && r[i] != []
  {
    seq(|name|, i requires 0 <= i < |name| => Simplify(name[i], suffixes))
  }

  /** The parts joined by '.'. */
  function Join(ps: seq<string>): string
  {
    if |ps| == 0 then "" else if |ps| == 1 then ps[0] else ps[0] + "." + Join(ps[1..])
  }

  /** The name made of the last `k` parts. */
  function Last(ps: seq<string>, k: nat): string
    requires k <= |ps|
  {
    Join(ps[|ps| - k..])
  }

  /** How many parts the name takes: from `k` on, parts are added while the
      name is taken and parts are left; the count is the first that gives a
      free name, or all of them. */
  function PartsUsed(ps: seq<string>, existing: set<string>, k: nat): (r: nat)
    requires 1 <= k <= |ps|
    ensures k <= r <= |ps|
    ensures r == |ps| || Last(ps, r) !in existing
    ensures forall j :: k <= j < r ==> Last(ps, j) in existing
    decreases |ps| - k
  {
    if k == |ps| || Last(ps, k) !in existing then k else PartsUsed(ps, existing, k + 1)
  }

  // ------------------------------------------------------------ numbering

  /** The name with ".n" appended. */
  function Candidate(base: string, n: nat): string
  {
    base + "." + Text.NatToString(n)
  }

  /** Different numbers give different names. */
  lemma CandidateInjective(base: string, m: nat, n: nat)
    requires Candidate(base, m) == Candidate(base, n)
    ensures m == n
  {
    assert Candidate(base, m)[|base| + 1..] == Text.NatToString(m);
    assert Candidate(base, n)[|base| + 1..] == Text.NatToString(n);
    Text.NatToStringInjective(m, n);
  }

  /** The name numbered `k` is taken. */
  ghost predicate Taken(base: string, existing: set<string>, k: nat)
  {
    Candidate(base, k) in existing
  }

  /** The numbered names before `n`, starting at 2. */
  ghost function Tried(base: string, n: nat): set<string>
  {
    if n <= 2 then {} else Tried(base, n - 1) + {Candidate(base, n - 1)}
  }

  /** How many taken names have not been tried yet. */
  ghost function Untried(base: string, existing: set<string>, n: nat): nat
  {
    |existing - Tried(base, n)|
  }

  /** A number's name is not among those of smaller numbers. */
  lemma {:induction false} NotYetTried(base: string, n: nat, m: nat)
    requires n <= m
    ensures Candidate(base, m) !in Tried(base, n)
  {
    if n > 2 {
      NotYetTried(base, n - 1, m);
      if Candidate(base, m) == Candidate(base, n - 1) {
        CandidateInjective(base, m, n - 1);
      }
    }
  }

  lemma TriedGrows(base: string, existing: set<string>, n: nat)
    requires n >= 2 && Taken(base, existing, n)
    ensures Untried(base, existing, n + 1) < Untried(base, existing, n)
  {
    var c := Candidate(base, n);
    NotYetTried(base, n, n);
    var a := existing - Tried(base, n);
    assert c in a;
    assert existing - Tried(base, n + 1) == a - {c};
    assert a == (a - {c}) + {c};
  }

  /** The first number from `n` on whose name is free. */
  ghost function FreeNumber(base: string, existing: set<string>, n: nat): (r: nat)
    requires n >= 2
    ensures n <= r && !Taken(base, existing, r)
    decreases Untried(base, existing, n)
  {
    if !Taken(base, existing, n) then n
    else
      TriedGrows(base, existing, n);
      FreeNumber(base, existing, n + 1)
  }

  /** Every number from `n` up to the free one is taken. */
  lemma {:induction false} FreeNumberLeast(base: string, existing: set<string>, n: nat, k: nat)
    requires 2 <= n <= k < FreeNumber(base, existing, n)
    ensures Taken(base, existing, k)
    decreases Untried(base, existing, n)
  {
    if k > n {
      TriedGrows(base, existing, n);
      FreeNumberLeast(base, existing, n + 1, k);
    }
  }

  /** The name numbered with the first free number from 2 on. */
  ghost function Numbered(base: string, existing: set<string>): (r: string)
    ensures r !in existing
  {
    Candidate(base, FreeNumber(base, existing, 2))
  }

  // ------------------------------------------------------------ the names

  /** `simplifiedName` as written: once every part has been used the name
      is numbered, whether or not the full name is taken. */
  ghost function SimplifiedNameAsWritten(name: ClassName, suffixes: seq<string>, existing: set<string>): (r: string)
    ensures r !in existing
  {
    var ps := SimplifiedParts(name, suffixes);
    var k := PartsUsed(ps, existing, 1);
    if k == |ps| then Numbered(Last(ps, k), existing) else Last(ps, k)
  }

  /** `simplifiedName` as its comment intends: a number is appended only
      when even the full name collides. */
  ghost function SimplifiedName(name: ClassName, suffixes: seq<string>, existing: set<string>): (r: string)
    ensures r !in existing
  {
    var ps := SimplifiedParts(name, suffixes);
    var k := PartsUsed(ps, existing, 1);
    if Last(ps, k) in existing then Numbered(Last(ps, k), existing) else Last(ps, k)
  }

  // ------------------------------------------------------------ properties

  /** Stripping keeps a non-empty prefix of the part. */
  lemma {:induction false} StripSuffixesKeepsPrefix(part: string, suffixes: seq<string>)
    requires part != []
    ensures var r := StripSuffixes(part, suffixes); r != [] && |r| <= |part| && r == part[..|r|]
    decreases |suffixes|
  {
    if suffixes != [] {
      var p := StripSuffix(part, suffixes[0]);
      StripSuffixesKeepsPrefix(p, suffixes[1..]);
      var r := StripSuffixes(part, suffixes);
      assert p == part[..|p|];
      assert r == p[..|r|];
      assert part[..|p|][..|r|] == part[..|r|];
    }
  }

  /** A part that ends with none of the suffixes is kept whole, and so is a
      part that is exactly one of them. */
  lemma {:induction false} StripSuffixesIdentity(part: string, suffixes: seq<string>)
    requires forall i :: 0 <= i < |suffixes| ==> !EndsWith(part, suffixes[i]) || |part| <= |suffixes[i]|
    ensures StripSuffixes(part, suffixes) == part
    decreases |suffixes|
  {
    if suffixes != [] {
      assert StripSuffix(part, suffixes[0]) == part;
      StripSuffixesIdentity(part, suffixes[1..]);
    }
  }

  /** A suffix the part ends with and is longer than is removed. */
  lemma StripOneSuffix(part: string, suffix: string)
    requires EndsWith(part, suffix) && |part| > |suffix|
    ensures StripSuffixes(part, [suffix]) + suffix == part
    ensures |StripSuffixes(part, [suffix])| > 0
  {
    assert StripSuffixes(part, [suffix]) == StripSuffixes(StripSuffix(part, suffix), []);
  }

  /** Adding a part in front joins it with a '.'. */
  lemma LastStep(ps: seq<string>, k: nat)
    requires 1 <= k < |ps|
    ensures Last(ps, k + 1) == ps[|ps| - k - 1] + "." + Last(ps, k)
  {
    assert ps[|ps| - k - 1..][1..] == ps[|ps| - k..];
  }

  /** The name of one part is the last part. */
  lemma LastOne(ps: seq<string>)
    requires |ps| >= 1
    ensures Last(ps, 1) == ps[|ps| - 1]
  {
    assert ps[|ps| - 1..] == [ps[|ps| - 1]];
  }

  /** The names of fewer than `k` last parts are all taken. */
  ghost predicate AllTaken(ps: seq<string>, existing: set<string>, k: nat)
    requires k <= |ps| + 1
  {
    forall j :: 1 <= j < k ==> Last(ps, j) in existing
  }

  /** The count `PartsUsed` stops at is the one the loop stops at. */
  lemma {:induction false} PartsUsedIs(ps: seq<string>, existing: set<string>, m: nat, k: nat)
    requires 1 <= m <= k <= |ps|
    requires k == |ps| || Last(ps, k) !in existing
    requires forall j :: m <= j < k ==> Last(ps, j) in existing
    ensures PartsUsed(ps, existing, m) == k
    decreases k - m
  {
    if m < k {
      PartsUsedIs(ps, existing, m + 1, k);
    }
  }

  /** While the full name is free no number is appended: the name is the
      shortest free one made of the last parts. */
  lemma NoNumberWhileFree(name: ClassName, suffixes: seq<string>, existing: set<string>)
    requires Join(SimplifiedParts(name, suffixes)) !in existing
    ensures var ps := SimplifiedParts(name, suffixes); var k := PartsUsed(ps, existing, 1);
            SimplifiedName(name, suffixes, existing) == Last(ps, k)
            && forall j :: 1 <= j < k ==> Last(ps, j) in existing
  {
    var ps := SimplifiedParts(name, suffixes);
    assert ps[0..] == ps;
  }

  /** When every name made of the last parts is taken, the full name gets
      the first free number from 2 on. */
  lemma NumberedWhenAllTaken(name: ClassName, suffixes: seq<string>, existing: set<string>)
    requires var ps := SimplifiedParts(name, suffixes); forall j :: 1 <= j <= |ps| ==> Last(ps, j) in existing
    ensures var full := Join(SimplifiedParts(name, suffixes)); var n := FreeNumber(full, existing, 2);
            SimplifiedName(name, suffixes, existing) == full + "." + Text.NatToString(n)
            && forall k :: 2 <= k < n ==> Taken(full, existing, k)
  {
    var ps := SimplifiedParts(name, suffixes);
    assert ps[0..] == ps;
    var full := Join(ps);
    forall k | 2 <= k < FreeNumber(full, existing, 2)
      ensures Taken(full, existing, k)
    {
      FreeNumberLeast(full, existing, 2, k);
    }
  }

  /** The written code and the intended one disagree exactly when every
      part is needed and the full name is free. */
  lemma AsWrittenDiffers(name: ClassName, suffixes: seq<string>, existing: set<string>)
    ensures var ps := SimplifiedParts(name, suffixes);
            SimplifiedNameAsWritten(name, suffixes, existing) != SimplifiedName(name, suffixes, existing)
            <==> PartsUsed(ps, existing, 1) == |ps| && Join(ps) !in existing
  {
    var ps := SimplifiedParts(name, suffixes);
    var k := PartsUsed(ps, existing, 1);
    assert ps[0..] == ps;
    if k == |ps| && Join(ps) !in existing {
      var full := Last(ps, k);
      assert |Numbered(full, existing)| > |full|;
    }
  }

  /** A class in the default package. */
  const Foo: ClassName := ["Foo"]

  lemma FooParts()
    ensures SimplifiedParts(Foo, []) == ["foo"]
  {
    var ps := SimplifiedParts(Foo, []);
    assert Text.LowerChar('F') == 'f';
    assert LowerFirst("Foo") == "foo";
    assert ps[0] == Simplify("Foo", []) == "foo";
  }

  /** With no names taken, the written code names `Foo` "foo.2", the
      intended one "foo". */
  lemma AsWrittenNumbersFreeName()
    ensures SimplifiedNameAsWritten(Foo, [], {}) == "foo.2"
    ensures SimplifiedName(Foo, [], {}) == "foo"
  {
    var ps := SimplifiedParts(Foo, []);
    FooParts();
    LastOne(ps);
    assert PartsUsed(ps, {}, 1) == 1;
    assert FreeNumber("foo", {}, 2) == 2;
    assert Text.NatToString(2) == "2";
  }

  const TokensAnnotation: ClassName := ["TokensAnnotation"]

  lemma TokensAnnotationParts()
    ensures SimplifiedParts(TokensAnnotation, ["Annotation"]) == ["tokens"]
  {
    assert StripSuffix("TokensAnnotation", "Annotation") == "Tokens";
    assert StripSuffixes("TokensAnnotation", ["Annotation"]) == StripSuffixes("Tokens", []);
    var ps := SimplifiedParts(TokensAnnotation, ["Annotation"]);
    assert Text.LowerChar('T') == 't';
    assert ps[0] == LowerFirst("Tokens") == "tokens";
  }

  /** Suffix stripping and lower-casing: `TokensAnnotation` with suffix
      `Annotation` is named "tokens". */
  lemma StripExample()
    ensures SimplifiedName(TokensAnnotation, ["Annotation"], {}) == "tokens"
  {
    var ps := SimplifiedParts(TokensAnnotation, ["Annotation"]);
    TokensAnnotationParts();
    LastOne(ps);
    assert PartsUsed(ps, {}, 1) == 1;
  }

  // ------------------------------------------------------------ the methods

  /** The suffix loop over one part. */
  method StripAll(part: string, suffixes: seq<string>) returns (r: string)
    ensures r == StripSuffixes(part, suffixes)
  {
    r := part;
    var j := 0;
    while j < |suffixes|
      invariant 0 <= j <= |suffixes|
      invariant StripSuffixes(r, suffixes[j..]) == StripSuffixes(part, suffixes)
    {
      var stripSuffix := suffixes[j];
      assert suffixes[j..][1..] == suffixes[j + 1..];
      if EndsWith(r, stripSuffix) && |r| > |stripSuffix| {
        r := r[..|r| - |stripSuffix|];
      }
      j := j + 1;
    }
  }

  /** One part, stripped and with its first character lower-cased. */
  method SimplifyPart(part: string, suffixes: seq<string>) returns (r: string)
    requires part != []
    ensures r == Simplify(part, suffixes)
  {
    r := StripAll(part, suffixes);
    StripSuffixesKeepsPrefix(part, suffixes);
    if IsUpper(r[0]) {
      r := [Text.LowerChar(r[0])] + (if |r| > 1 then r[1..] else "");
    }
  }

  /** The do-while loop: prepend parts, right to left, while the name is
      taken and parts are left. It returns the name and the index of the
      next unused part. */
  method PrependParts(name: ClassName, suffixes: seq<string>, existing: set<string>) returns (built: string, i: int)
    ensures var ps := SimplifiedParts(name, suffixes);
            i == |name| - 1 - PartsUsed(ps, existing, 1) && built == Last(ps, PartsUsed(ps, existing, 1))
  {
    ghost var ps := SimplifiedParts(name, suffixes);
    i := |name| - 1;
    built := SimplifyPart(name[i], suffixes);
    LastOne(ps);
    i := i - 1;
    ghost var k: nat := 1;
    while i >= 0 && built in existing
      invariant -1 <= i < |name| - 1 && k == |name| - 1 - i
      invariant built == Last(ps, k)
      invariant AllTaken(ps, existing, k)
    {
      var part := SimplifyPart(name[i], suffixes);
      assert part == ps[|ps| - k - 1];
      LastStep(ps, k);
      built := part + "." + built;
      i := i - 1;
      k := k + 1;
    }
    PartsUsedIs(ps, existing, 1, k);
  }

  /** The numbering loop: append ".2", then replace the number after the
      mark with the next one while the name is taken. */
  method NumberName(base: string, existing: set<string>) returns (r: string)
    ensures r == Numbered(base, existing)
  {
    var number := 2;
    r := base + ".";
    var mark := |r|;
    r := r + Text.NatToString(number);
    while r in existing
      invariant number >= 2 && r == Candidate(base, number) && mark == |base| + 1
      invariant FreeNumber(base, existing, number) == FreeNumber(base, existing, 2)
      decreases Untried(base, existing, number)
    {
      TriedGrows(base, existing, number);
      number := number + 1;
      r := r[..mark] + Text.NatToString(number);
    }
  }

  /** `simplifiedName` as the code is written. */
  method SimplifiedNameAsWrittenMethod(name: ClassName, suffixes: seq<string>, existing: set<string>) returns (r: string)
    ensures r == SimplifiedNameAsWritten(name, suffixes, existing)
    ensures r !in existing
  {
    var i;
    r, i := PrependParts(name, suffixes, existing);
    if i < 0 {
      r := NumberName(r, existing);
    }
  }

  /** `simplifiedName`, numbering only a name that collides. */
  method SimplifiedNameMethod(name: ClassName, suffixes: seq<string>, existing: set<string>) returns (r: string)
    ensures r == SimplifiedName(name, suffixes, existing)
    ensures r !in existing
  {
    var i;
    r, i := PrependParts(name, suffixes, existing);
    if r in existing {
      r := NumberName(r, existing);
    }
  }

  // ------------------------------------------------------------ the builder

  /** No two classes share a simple name, as a `BiMap` keeps it. */
  predicate Injective(m: map<ClassName, string>)
  {
    forall a, b :: a in m && b in m && m[a] == m[b] ==> a == b
  }

  /** The naming `build` uses: `simplifiedName` as written, free among the
      names given so far. */
  ghost function Namer(suffixes: seq<string>): (ClassName, set<string>) -> string
  {
    (c: ClassName, names: set<string>) => SimplifiedNameAsWritten(c, suffixes, names)
  }

  lemma NamerFresh(suffixes: seq<string>)
    ensures forall c, names :: Namer(suffixes)(c, names) !in names
  {
    forall c, names
      ensures Namer(suffixes)(c, names) !in names
    {
      assert Namer(suffixes)(c, names) == SimplifiedNameAsWritten(c, suffixes, names);
    }
  }

  /** `build`'s loop: each candidate without a name gets one from `namer`,
      given the names so far. */
  ghost function FillNames(m: map<ClassName, string>, candidates: seq<ClassName>, namer: (ClassName, set<string>) -> string): map<ClassName, string>
    decreases |candidates|
  {
    if candidates == [] then m
    else
      var c := candidates[0];
      var next := if c in m then m else m[c := namer(c, m.Values)];
      FillNames(next, candidates[1..], namer)
  }

  function Elements(cs: seq<ClassName>): set<ClassName>
  {
    set i | 0 <= i < |cs| :: cs[i]
  }

  /** Names given explicitly are kept; exactly the candidates are added. */
  lemma {:induction false} FillNamesKeeps(m: map<ClassName, string>, candidates: seq<ClassName>, namer: (ClassName, set<string>) -> string)
    ensures var r := FillNames(m, candidates, namer);
            && r.Keys == m.Keys + Elements(candidates)
            && forall c :: c in m ==> r[c] == m[c]
    decreases |candidates|
  {
    if candidates != [] {
      var c := candidates[0];
      var next := if c in m then m else m[c := namer(c, m.Values)];
      FillNamesKeeps(next, candidates[1..], namer);
      var rest := candidates[1..];
      assert Elements(candidates) == {c} + Elements(rest) by {
        forall x | x in Elements(candidates)
          ensures x in {c} + Elements(rest)
        {
          var i :| 0 <= i < |candidates| && x == candidates[i];
          if i > 0 {
            assert x == rest[i - 1];
          }
        }
      }
    }
  }

  /** A new class with a name not yet used keeps the names different. */
  lemma AddNameInjective(m: map<ClassName, string>, c: ClassName, n: string)
    requires Injective(m) && c !in m && n !in m.Values
    ensures Injective(m[c := n])
  {
    var next := m[c := n];
    assert forall x :: x in m ==> m[x] in m.Values;
    forall a, b | a in next && b in next && next[a] == next[b]
      ensures a == b
    {
      if a != c && b != c {
        assert m[a] == m[b];
      }
    }
  }

  /** With a namer that picks free names, the names stay pairwise
      different. */
  lemma {:induction false} FillNamesInjective(m: map<ClassName, string>, candidates: seq<ClassName>, namer: (ClassName, set<string>) -> string)
    requires Injective(m)
    requires forall c, names :: namer(c, names) !in names
    ensures Injective(FillNames(m, candidates, namer))
    decreases |candidates|
  {
    if candidates != [] {
      var c := candidates[0];
      if c !in m {
        AddNameInjective(m, c, namer(c, m.Values));
        FillNamesInjective(m[c := namer(c, m.Values)], candidates[1..], namer);
      } else {
        FillNamesInjective(m, candidates[1..], namer);
      }
    }
  }

  /** One round of `build`'s loop on the name map: a candidate without a
      simple name gets the as-written simplified name, free among the names
      so far, so the names stay pairwise different. */
  method NameStep(m: map<ClassName, string>, c: ClassName, suffixes: seq<string>) returns (r: map<ClassName, string>)
    requires Injective(m)
    ensures Injective(r)
    ensures r == if c in m then m else m[c := Namer(suffixes)(c, m.Values)]
  {
    if c in m {
      return m;
    }
    var name := SimplifiedNameAsWrittenMethod(c, suffixes, m.Values);
    NamerApplies(suffixes, c, m.Values);
    AddNameInjective(m, c, name);
    r := m[c := name];
  }

  lemma NamerApplies(suffixes: seq<string>, c: ClassName, names: set<string>)
    ensures Namer(suffixes)(c, names) == SimplifiedNameAsWritten(c, suffixes, names)
  {
  }

  /** `order` visits every element of `elements` exactly once, as an
      iteration over a hash set does. */
  predicate IterationOrder(order: seq<string>, elements: set<string>)
  {
    && (forall i, j :: 0 <= i < j < |order| ==> order[i] != order[j])
    && (forall i :: 0 <= i < |order| ==> order[i] in elements)
    && (forall x :: x in elements ==> x in order)
  }

  /** The result of stripping depends on the iteration order: "FooAnnotation"
      loses "Annotation" when that suffix comes first, and only "ation" when
      "ation" does. */
  lemma SuffixOrderMatters()
    ensures IterationOrder(["Annotation", "ation"], {"Annotation", "ation"})
    ensures IterationOrder(["ation", "Annotation"], {"Annotation", "ation"})
    ensures StripSuffixes("FooAnnotation", ["Annotation", "ation"]) == "Foo"
    ensures StripSuffixes("FooAnnotation", ["ation", "Annotation"]) == "FooAnnot"
  {
    StripAnnotationFirst();
    StripAtionFirst();
  }

  lemma StripAnnotationFirst()
    ensures StripSuffixes("FooAnnotation", ["Annotation", "ation"]) == "Foo"
  {
    assert "FooAnnotation"[3..] == "Annotation" && "FooAnnotation"[..3] == "Foo";
    assert !EndsWith("Foo", "ation");
    assert ["Annotation", "ation"][1..] == ["ation"];
  }

  lemma StripAtionFirst()
    ensures StripSuffixes("FooAnnotation", ["ation", "Annotation"]) == "FooAnnot"
  {
    assert "FooAnnotation"[8..] == "ation" && "FooAnnotation"[..8] == "FooAnnot";
    assert !EndsWith("FooAnnot", "Annotation");
    assert ["ation", "Annotation"][1..] == ["Annotation"];
  }

  /** A `BiMap.put` whose value is already bound to another key. */
  datatype NameError = NameTaken(name: string)

  class Builder {
    var annotationRoots: set<ClassName>
    var stripSuffixes: set<string>
    var simpleNames: map<ClassName, string>

    ghost predicate Valid()
      reads this
    {
      Injective(simpleNames)
    }

    constructor ()
      ensures Valid()
      ensures annotationRoots == {} && stripSuffixes == {} && simpleNames == map[]
    {
      annotationRoots := {};
      stripSuffixes := {};
      simpleNames := map[];
    }

    method AddAnnotationRoot(root: ClassName)
      modifies this
      ensures annotationRoots == old(annotationRoots) + {root}
      ensures stripSuffixes == old(stripSuffixes) && simpleNames == old(simpleNames)
    {
      annotationRoots := annotationRoots + {root};
    }

    method AddStripSuffix(suffix: string)
      requires Valid()
      modifies this
      ensures Valid()
      ensures stripSuffixes == old(stripSuffixes) + {suffix}
      ensures annotationRoots == old(annotationRoots) && simpleNames == old(simpleNames)
    {
      stripSuffixes := stripSuffixes + {suffix};
    }

    /** A name bound to another class is refused; otherwise the class's name
        is set or replaced. */
    method AddSimplifiedName(annotationType: ClassName, name: string) returns (r: Outcome<NameError>)
      requires Valid()
      modifies this
      ensures Valid()
      ensures r.Fail? <==> exists c :: c in old(simpleNames) && c != annotationType && old(simpleNames)[c] == name
      ensures r.Pass? ==> simpleNames == old(simpleNames)[annotationType := name]
      ensures r.Fail? ==> simpleNames == old(simpleNames)
      ensures annotationRoots == old(annotationRoots) && stripSuffixes == old(stripSuffixes)
    {
      if exists c :: c in simpleNames && c != annotationType && simpleNames[c] == name {
        return Fail(NameTaken(name));
      }
      simpleNames := simpleNames[annotationType := name];
      r := Pass;
    }

    /** `build`: when there are annotation roots, every candidate class found
        under them that has no simple name gets one. The candidates are
        given in the found set's iteration order, and `suffixOrder` is the
        iteration order of the suffix set: each suffix once. */
    method Build(candidates: seq<ClassName>, suffixOrder: seq<string>) returns (names: map<ClassName, string>)
      requires Valid()
      requires IterationOrder(suffixOrder, stripSuffixes)
      modifies this
      ensures Valid()
      ensures simpleNames == if old(annotationRoots) == {} then old(simpleNames)
                             else FillNames(old(simpleNames), candidates, Namer(suffixOrder))
      ensures names == simpleNames
      ensures annotationRoots == old(annotationRoots) && stripSuffixes == old(stripSuffixes)
    {
      if annotationRoots != {} {
        var i := 0;
        while i < |candidates|
          invariant 0 <= i <= |candidates|
          invariant Valid() && stripSuffixes == old(stripSuffixes) && annotationRoots == old(annotationRoots)
          invariant FillNames(simpleNames, candidates[i..], Namer(suffixOrder)) == FillNames(old(simpleNames), candidates, Namer(suffixOrder))
        {
          assert candidates[i..][0] == candidates[i] && candidates[i..][1..] == candidates[i + 1..];
          simpleNames := NameStep(simpleNames, candidates[i], suffixOrder);
          i := i + 1;
        }
      }
      names := simpleNames;
    }
  }
}
