// Character and string helpers shared by the model: whitespace splitting,
// trimming, ASCII case mapping and decimal rendering of numbers.
module Text {

  /** The whitespace class of a regular expression `\s` (Java and Python agree
      on it): space, tab, line feed, vertical tab, form feed, carriage return. */
  predicate IsSpace(c: char) {
    c == ' ' || c == '\t' || c == '\n' || c == '\U{B}' || c == '\U{C}' || c == '\r'
  }

  predicate StartsWith(s: string, prefix: string) {
    |prefix| <= |s| && s[..|prefix|] == prefix
  }

  /** Length of the run of non-space characters at the front of `s`. */
  function TokenLength(s: string): (n: nat)
    ensures n <= |s|
  {
    if s == [] || IsSpace(s[0]) then 0 else 1 + TokenLength(s[1..])
  }

  /** The maximal runs of non-space characters of `s`, in order: what splitting
      a stripped line on the pattern `\s+` yields when the line is not blank. */
  function Words(s: string): seq<string>
  {
    if s == [] then []
    else if IsSpace(s[0]) then Words(s[1..])
    else
      var n := TokenLength(s);
      [s[..n]] + Words(s[n..])
  }

  /** The fields of a line split on `\s+` after stripping: a blank line yields
      the one empty field, as both Python's `re.split` and Java's
      `Pattern.split` do on the empty string. */
  function Fields(s: string): seq<string>
  {
    var ws := Words(s);
    if ws == [] then [""] else ws
  }

  /** The token at the front of `s` is a non-empty run of non-space
      characters that ends at a space or at the end of `s`. */
  lemma {:induction false} TokenLengthSpec(s: string)
    ensures forall i :: 0 <= i < TokenLength(s) ==> !IsSpace(s[i])
    ensures TokenLength(s) < |s| ==> IsSpace(s[TokenLength(s)])
    ensures s != [] && !IsSpace(s[0]) ==> TokenLength(s) > 0
  {
    if s != [] && !IsSpace(s[0]) {
      TokenLengthSpec(s[1..]);
    }
  }

  /** Every word is non-empty and free of spaces. */
  lemma {:induction false} WordsSpec(s: string)
    ensures forall i :: 0 <= i < |Words(s)| ==> |Words(s)[i]| > 0
    ensures forall i, j :: 0 <= i < |Words(s)| && 0 <= j < |Words(s)[i]| ==> !IsSpace(Words(s)[i][j])
    decreases |s|
  {
    if s != [] {
      if IsSpace(s[0]) {
        WordsSpec(s[1..]);
      } else {
        var n := TokenLength(s);
        TokenLengthSpec(s);
        WordsSpec(s[n..]);
      }
    }
  }

  /** There is always at least one field, and every field is a word unless
      the line is blank. */
  lemma FieldsSpec(s: string)
    ensures |Fields(s)| >= 1
    ensures Fields(s) == [""] <==> Words(s) == []
    ensures Words(s) != [] ==> Fields(s) == Words(s)
  {
    WordsSpec(s);
  }

  /** Every character lies above U+0020: such text is neither trimmed nor
      split. */
  predicate Visible(s: string)
  {
    forall i :: 0 <= i < |s| ==> s[i] > ' '
  }

  lemma {:induction false} TokenLengthVisible(w: string, rest: string)
    requires Visible(w) && (rest == [] || IsSpace(rest[0]))
    ensures TokenLength(w + rest) == |w|
  {
    if w != [] {
      assert (w + rest)[1..] == w[1..] + rest;
      TokenLengthVisible(w[1..], rest);
    }
  }

  /** A visible word followed by a space is the first word. */
  lemma WordsFront(w: string, c: char, rest: string)
    requires w != [] && Visible(w) && IsSpace(c)
    ensures Words(w + [c] + rest) == [w] + Words(rest)
  {
    var s := w + [c] + rest;
    assert s == w + ([c] + rest);
    TokenLengthVisible(w, [c] + rest);
    assert s[..|w|] == w;
    assert s[|w|..] == [c] + rest;
    assert ([c] + rest)[1..] == rest;
  }

  /** A non-empty visible text is a single word. */
  lemma WordsVisible(w: string)
    requires w != [] && Visible(w)
    ensures Words(w) == [w]
  {
    TokenLengthVisible(w, []);
    assert w + [] == w;
    assert w[|w|..] == [];
  }

  /** Text that begins and ends with a visible character is not trimmed. */
  lemma TrimVisibleEnds(s: string)
    requires s != [] && s[0] > ' ' && s[|s| - 1] > ' '
    ensures Trim(s) == s
  {
  }

  /** Characters up to U+0020 only. */
  predicate Blank(s: string)
  {
    forall i :: 0 <= i < |s| ==> s[i] <= ' '
  }

  lemma {:induction false} TrimStartBlanks(pre: string, s: string)
    requires Blank(pre) && s != [] && s[0] > ' '
    ensures TrimStart(pre + s) == s
  {
    var t := pre + s;
    if pre != [] {
      assert t[0] <= ' ' by {
        assert t[0] == pre[0];
      }
      assert t[1..] == pre[1..] + s;
      assert Blank(pre[1..]) by {
        assert forall i :: 0 <= i < |pre| - 1 ==> pre[1..][i] == pre[i + 1];
      }
      TrimStartBlanks(pre[1..], s);
    } else {
      assert t == s;
    }
  }

  lemma {:induction false} TrimEndBlanks(s: string, post: string)
    requires Blank(post) && s != [] && s[|s| - 1] > ' '
    ensures TrimEnd(s + post) == s
  {
    if post != [] {
      assert (s + post)[..|s + post| - 1] == s + post[..|post| - 1];
      TrimEndBlanks(s, post[..|post| - 1]);
    } else {
      assert s + post == s;
    }
  }

  /** Blanks around a text that begins and ends visibly are trimmed away. */
  lemma TrimBlanks(pre: string, s: string, post: string)
    requires Blank(pre) && Blank(post) && s != [] && s[0] > ' ' && s[|s| - 1] > ' '
    ensures Trim(pre + s + post) == s
  {
    assert pre + s + post == pre + (s + post);
    TrimStartBlanks(pre, s + post);
    TrimEndBlanks(s, post);
  }

  lemma WordsOfTwo(a: string, b: string)
    requires a != [] && Visible(a) && b != [] && Visible(b)
    ensures Words(a + "\t" + b) == [a, b]
  {
    WordsFront(a, '\t', b);
    WordsVisible(b);
  }

  lemma WordsOfThree(a: string, b: string, c: string)
    requires a != [] && Visible(a) && b != [] && Visible(b) && c != [] && Visible(c)
    ensures Words(a + "\t" + b + "\t" + c) == [a, b, c]
  {
    assert a + "\t" + b + "\t" + c == a + ['\t'] + (b + ['\t'] + c);
    WordsFront(a, '\t', b + ['\t'] + c);
    WordsOfTwo(b, c);
  }

  /** Two visible words joined by a tab are trimmed to themselves and split
      back into the two words. */
  lemma FieldsOfTwo(a: string, b: string)
    requires a != [] && Visible(a) && b != [] && Visible(b)
    ensures Fields(Trim(a + "\t" + b)) == [a, b]
  {
    var line := a + "\t" + b;
    assert line[|line| - 1] == b[|b| - 1];
    TrimVisibleEnds(line);
    WordsOfTwo(a, b);
  }

  /** Three visible words joined by tabs split back into the three words. */
  lemma FieldsOfThree(a: string, b: string, c: string)
    requires a != [] && Visible(a) && b != [] && Visible(b) && c != [] && Visible(c)
    ensures Fields(Trim(a + "\t" + b + "\t" + c)) == [a, b, c]
  {
    var line := a + "\t" + b + "\t" + c;
    assert line[|line| - 1] == c[|c| - 1];
    TrimVisibleEnds(line);
    WordsOfThree(a, b, c);
  }

  /** Java's `String.trim`: removes every character up to U+0020 from both ends. */
  function Trim(s: string): (t: string)
    ensures |t| <= |s|
    ensures t != [] ==> t[0] > ' ' && t[|t| - 1] > ' '
  {
    TrimEnd(TrimStart(s))
  }

  function TrimStart(s: string): (t: string)
    ensures |t| <= |s| && t == s[|s| - |t|..]
    ensures t != [] ==> t[0] > ' '
  {
    if s != [] && s[0] <= ' ' then TrimStart(s[1..]) else s
  }

  function TrimEnd(s: string): (t: string)
    ensures |t| <= |s| && t == s[..|t|]
    ensures t != [] ==> t[|t| - 1] > ' '
    ensures s != [] && s[0] > ' ' ==> t != [] && t[0] == s[0]
  {
    if s != [] && s[|s| - 1] <= ' ' then TrimEnd(s[..|s| - 1]) else s
  }

  function LowerChar(c: char): char {
    if 'A' <= c <= 'Z' then (c as int + 32) as char else c
  }

  function UpperChar(c: char): char {
    if 'a' <= c <= 'z' then (c as int - 32) as char else c
  }

  /** ASCII lower-casing, the model's `String.toLowerCase`. */
  function Lower(s: string): (t: string)
    ensures |t| == |s| && forall i :: 0 <= i < |s| ==> t[i] == LowerChar(s[i])
  {
    seq(|s|, i requires 0 <= i < |s| => LowerChar(s[i]))
  }

  /** Java's `String.equalsIgnoreCase`, restricted to ASCII case mapping. */
  predicate EqualsIgnoreCase(a: string, b: string) {
    Lower(a) == Lower(b)
  }

  function DigitChar(d: nat): char
    requires d < 10
  {
    "0123456789"[d]
  }

  /** Decimal rendering of a natural number, without leading zeros. */
  function NatToString(n: nat): (s: string)
    ensures |s| >= 1
    ensures forall i :: 0 <= i < |s| ==> '0' <= s[i] <= '9'
    ensures n >= 10 <==> |s| >= 2
    ensures |s| >= 2 ==> s[0] != '0'
  {
    if n < 10 then [DigitChar(n)] else NatToString(n / 10) + [DigitChar(n % 10)]
  }

  lemma DigitCharInjective(a: nat, b: nat)
    requires a < 10 && b < 10 && DigitChar(a) == DigitChar(b)
    ensures a == b
  {
  }

  /** Distinct numbers render as distinct strings. */
  lemma {:induction false} NatToStringInjective(a: nat, b: nat)
    requires NatToString(a) == NatToString(b)
    ensures a == b
  {
    var s := NatToString(a);
    if a < 10 && b < 10 {
      DigitCharInjective(a, b);
    } else if a >= 10 && b >= 10 {
      assert NatToString(a / 10) == s[..|s| - 1] == NatToString(b / 10);
      NatToStringInjective(a / 10, b / 10);
      DigitCharInjective(a % 10, b % 10);
    }
  }

  /** Formats a non-negative number as with `%03d`: zero-padded to at least
      three digits. */
  function Pad3(n: nat): (s: string)
    ensures |s| >= 3
    ensures forall i :: 0 <= i < |s| ==> '0' <= s[i] <= '9'
  {
    var d := NatToString(n);
    if |d| == 1 then "00" + d else if |d| == 2 then "0" + d else d
  }

  /** The number a string of decimal digits denotes. */
  function DigitsValue(s: string): nat
    requires forall i :: 0 <= i < |s| ==> '0' <= s[i] <= '9'
  {
    if s == [] then 0 else DigitsValue(s[..|s| - 1]) * 10 + (s[|s| - 1] as int - '0' as int)
  }

  lemma DigitCharValue(d: nat)
    requires d < 10
    ensures DigitChar(d) as int - '0' as int == d
  {
    if d == 0 {} else if d == 1 {} else if d == 2 {} else if d == 3 {} else if d == 4 {}
    else if d == 5 {} else if d == 6 {} else if d == 7 {} else if d == 8 {} else {}
  }

  /** Reading the rendering back gives the number. */
  lemma {:induction false} NatToStringValue(n: nat)
    ensures DigitsValue(NatToString(n)) == n
  {
    var s := NatToString(n);
    if n < 10 {
      DigitCharValue(n);
      assert s[..0] == [];
    } else {
      NatToStringValue(n / 10);
      DigitCharValue(n % 10);
      assert s[..|s| - 1] == NatToString(n / 10);
    }
  }

  /** A leading zero does not change the value. */
  lemma {:induction false} LeadingZeroValue(d: string)
    requires forall i :: 0 <= i < |d| ==> '0' <= d[i] <= '9'
    ensures DigitsValue("0" + d) == DigitsValue(d)
  {
    if d == [] {
      assert ("0" + d)[..0] == [];
    } else {
      LeadingZeroValue(d[..|d| - 1]);
      assert ("0" + d)[..|d|] == "0" + d[..|d| - 1];
    }
  }

  /** Numbers below 100 take at most two digits, below 1000 at most three. */
  lemma {:induction false} NatToStringShort(n: nat)
    ensures n < 100 ==> |NatToString(n)| <= 2
    ensures n < 1000 ==> |NatToString(n)| <= 3
  {
    if n >= 10 {
      NatToStringShort(n / 10);
    }
  }

  /** Numbers from 100 take at least three digits, from 1000 at least four. */
  lemma {:induction false} NatToStringLong(n: nat)
    ensures n >= 100 ==> |NatToString(n)| >= 3
    ensures n >= 1000 ==> |NatToString(n)| >= 4
  {
    if n >= 100 {
      NatToStringLong(n / 10);
    }
  }

  /** `%03d` keeps the value. */
  lemma Pad3Value(n: nat)
    ensures DigitsValue(Pad3(n)) == n
  {
    var d := NatToString(n);
    NatToStringValue(n);
    if |d| == 1 {
      LeadingZeroValue(d);
      LeadingZeroValue("0" + d);
      assert "00" + d == "0" + ("0" + d);
    } else if |d| == 2 {
      LeadingZeroValue(d);
    }
  }

  /** `%03d` takes exactly three digits below 1000, and from 100 on it is
      the plain rendering. */
  lemma Pad3Length(n: nat)
    ensures n < 1000 <==> |Pad3(n)| == 3
    ensures n >= 100 ==> Pad3(n) == NatToString(n)
  {
    NatToStringShort(n);
    NatToStringLong(n);
  }
}
