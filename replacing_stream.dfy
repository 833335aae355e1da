// `ReplacingInputStream`: a filter over a byte stream that replaces every
// occurrence of a search pattern with a replacement. A look-ahead window of
// `|search|` bytes (`inBuffer`) is compared with the pattern; the bytes to
// deliver next wait in `outBuffer`.
module ReplacingStream {
  import opened Wrappers
  import opened CircularBuffer

  /** The value `InputStream.read` reports for a byte: 0 to 255. */
  function Unsigned(b: JByte): (v: int)
    ensures 0 <= v < 256
    ensures ToByte(v) == b
  {
    if b < 0 then b as int + 256 else b as int
  }

  /** Java's `(byte)` cast of a value from 0 to 255. */
  function ToByte(v: int): JByte
    requires 0 <= v < 256
  {
    if v < 128 then v as JByte else (v - 256) as JByte
  }

  predicate OccursAt(s: seq<JByte>, i: nat, search: seq<JByte>)
  {
    i + |search| <= |s| && s[i..i + |search|] == search
  }

  /** The stream `s` with the occurrences of `search` replaced, scanning from
      the left and resuming after each replaced occurrence. */
  function ReplaceAll(s: seq<JByte>, search: seq<JByte>, replacement: seq<JByte>): seq<JByte>
    requires |search| >= 1
    decreases |s|
  {
    if OccursAt(s, 0, search) then replacement + ReplaceAll(s[|search|..], search, replacement)
    else if s == [] then []
    else [s[0]] + ReplaceAll(s[1..], search, replacement)
  }

  /** Without an occurrence, the stream passes unchanged. */
  lemma {:induction false} ReplaceAllNoMatch(s: seq<JByte>, search: seq<JByte>, replacement: seq<JByte>)
    requires |search| >= 1
    requires forall i :: 0 <= i < |s| ==> !OccursAt(s, i, search)
    ensures ReplaceAll(s, search, replacement) == s
  {
    if s != [] {
      assert !OccursAt(s, 0, search);
      forall i | 0 <= i < |s[1..]|
        ensures !OccursAt(s[1..], i, search)
      {
        assert !OccursAt(s, i + 1, search);
        if i + |search| <= |s[1..]| {
          assert s[1..][i..i + |search|] == s[i + 1..i + 1 + |search|];
        }
      }
      ReplaceAllNoMatch(s[1..], search, replacement);
    }
  }

  /** The leftmost occurrence is the one replaced: when no occurrence starts
      inside `p`, the stream `p + search + q` becomes `p`, the replacement,
      then `q` processed in turn. */
  lemma {:induction false} ReplaceAllFirst(p: seq<JByte>, q: seq<JByte>, search: seq<JByte>, replacement: seq<JByte>)
    requires |search| >= 1
    requires forall i :: 0 <= i < |p| ==> !OccursAt(p + search + q, i, search)
    ensures ReplaceAll(p + search + q, search, replacement) == p + replacement + ReplaceAll(q, search, replacement)
  {
    var s := p + search + q;
    if p == [] {
      assert s == search + q;
      assert s[..|search|] == search;
      assert s[|search|..] == q;
    } else {
      assert !OccursAt(s, 0, search);
      assert s[1..] == p[1..] + search + q;
      forall i | 0 <= i < |p[1..]|
        ensures !OccursAt(p[1..] + search + q, i, search)
      {
        assert !OccursAt(s, i + 1, search);
        if i + |search| <= |s[1..]| {
          assert s[1..][i..i + |search|] == s[i + 1..i + 1 + |search|];
        }
      }
      ReplaceAllFirst(p[1..], q, search, replacement);
      assert [s[0]] + p[1..] == p;
    }
  }

  /** The output is empty exactly when the input is: the replacement is never
      empty. */
  lemma ReplaceAllEmpty(s: seq<JByte>, search: seq<JByte>, replacement: seq<JByte>)
    requires |search| >= 1 && |replacement| >= 1
    ensures ReplaceAll(s, search, replacement) == [] <==> s == []
  {
  }

  /** A stream without the pattern's first byte holds no occurrence. */
  lemma NoFirstByte(s: seq<JByte>, search: seq<JByte>)
    requires |search| >= 1 && search[0] !in s
    ensures forall i :: 0 <= i < |s| ==> !OccursAt(s, i, search)
  {
    forall i | 0 <= i < |s|
      ensures !OccursAt(s, i, search)
    {
      if i + |search| <= |s| {
        assert s[i..i + |search|][0] == s[i];
      }
    }
  }

  /** An occurrence starting inside `p` would begin with a byte of `p`. */
  lemma OccurrenceInPrefix(p: seq<JByte>, q: seq<JByte>, search: seq<JByte>)
    requires |search| >= 1 && search[0] !in p
    ensures forall i :: 0 <= i < |p| ==> !OccursAt(p + search + q, i, search)
  {
    forall i | 0 <= i < |p|
      ensures !OccursAt(p + search + q, i, search)
    {
      assert (p + search + q)[i] == p[i];
      if i + |search| <= |p + search + q| {
        assert (p + search + q)[i..i + |search|][0] == p[i];
      }
    }
  }

  /** A single occurrence, with the pattern's first byte nowhere else, is
      replaced and everything around it is kept. */
  lemma ReplaceOnce(p: seq<JByte>, q: seq<JByte>, search: seq<JByte>, replacement: seq<JByte>)
    requires |search| >= 1 && search[0] !in p && search[0] !in q
    ensures ReplaceAll(p + search + q, search, replacement) == p + replacement + q
  {
    OccurrenceInPrefix(p, q, search);
    ReplaceAllFirst(p, q, search, replacement);
    NoFirstByte(q, search);
    ReplaceAllNoMatch(q, search, replacement);
  }

  /** `String.getBytes` for ASCII text. */
  function Ascii(s: string): (bytes: seq<JByte>)
    requires forall i :: 0 <= i < |s| ==> s[i] < 128 as char
    ensures |bytes| == |s|
  {
    seq(|s|, i requires 0 <= i < |s| && s[i] < 128 as char => s[i] as int as JByte)
  }

  predicate IsAscii(s: string)
  {
    forall i :: 0 <= i < |s| ==> s[i] < 128 as char
  }

  lemma AsciiAppend3(a: string, b: string, c: string)
    requires IsAscii(a) && IsAscii(b) && IsAscii(c)
    ensures IsAscii(a + b + c)
    ensures Ascii(a + b + c) == Ascii(a) + Ascii(b) + Ascii(c)
  {
    assert IsAscii(a + b + c);
    assert Ascii(a + b + c) == Ascii(a) + Ascii(b) + Ascii(c);
  }

  lemma AsciiNotIn(s: string, c: char)
    requires IsAscii(s)
    requires c < 128 as char && c !in s
    ensures c as int as JByte !in Ascii(s)
  {
    forall i | 0 <= i < |s|
      ensures Ascii(s)[i] != c as int as JByte
    {
      assert s[i] != c;
    }
  }

  /** The first parameterised case of the stream's unit test. */
  lemma ReplaceHelloXyz()
    ensures ReplaceAll(Ascii("hello xyz world."), Ascii("xyz"), Ascii("abc")) == Ascii("hello abc world.")
  {
    AsciiAppend3("hello ", "xyz", " world.");
    AsciiAppend3("hello ", "abc", " world.");
    assert "hello " + "xyz" + " world." == "hello xyz world.";
    assert "hello " + "abc" + " world." == "hello abc world.";
    AsciiNotIn("hello ", 'x');
    AsciiNotIn(" world.", 'x');
    ReplaceOnce(Ascii("hello "), Ascii(" world."), Ascii("xyz"), Ascii("abc"));
  }

  /** The second parameterised case of the stream's unit test. */
  lemma ReplaceHelloAmpersand()
    ensures ReplaceAll(Ascii("hello & world."), Ascii("& "), Ascii("&amp; ")) == Ascii("hello &amp; world.")
  {
    AsciiAppend3("hello ", "& ", "world.");
    AsciiAppend3("hello ", "&amp; ", "world.");
    assert "hello " + "& " + "world." == "hello & world.";
    assert "hello " + "&amp; " + "world." == "hello &amp; world.";
    AsciiNotIn("hello ", '&');
    AsciiNotIn("world.", '&');
    ReplaceOnce(Ascii("hello "), Ascii("world."), Ascii("& "), Ascii("&amp; "));
  }

  /** What `read()` as written returns when `pending` is what the stream has
      still to deliver: the next byte sign-extended, or -1 at the end. */
  function SignedRead(pending: seq<JByte>): int
  {
    if pending == [] then -1 else pending[0] as int
  }

  /** What `read()` is meant to return: the next byte as 0 to 255, or -1 at
      the end. */
  function UnsignedRead(pending: seq<JByte>): int
  {
    if pending == [] then -1 else Unsigned(pending[0])
  }

  /** As written, a remaining 0xFF byte reads exactly like the end of the
      stream. */
  lemma SignedReadConfusesEnd()
    ensures SignedRead([-1 as JByte]) == SignedRead([])
  {
  }

  /** The unsigned read reports the end exactly at the end, and otherwise a
      value that casts back to the next byte. */
  lemma UnsignedReadSpec(pending: seq<JByte>)
    ensures UnsignedRead(pending) == -1 <==> pending == []
    ensures pending != [] ==> 0 <= UnsignedRead(pending) < 256 && ToByte(UnsignedRead(pending)) == pending[0]
  {
  }

  /** One step of the filter on a window that is full, or short because the
      stream ends: a matching window becomes the replacement, any other
      non-empty window passes its first byte, and an empty one means the
      end. */
  lemma ReplaceAllStep(window: seq<JByte>, rest: seq<JByte>, search: seq<JByte>, replacement: seq<JByte>)
    requires |search| >= 1 && |window| <= |search| && (|window| == |search| || rest == [])
    ensures window == search ==>
      ReplaceAll(window + rest, search, replacement) == replacement + ReplaceAll(rest, search, replacement)
    ensures window != search && window != [] ==>
      ReplaceAll(window + rest, search, replacement) == [window[0]] + ReplaceAll(window[1..] + rest, search, replacement)
    ensures window == [] ==> ReplaceAll(window + rest, search, replacement) == []
  {
    var s := window + rest;
    if window == search {
      assert s[0..|search|] == search && s[|search|..] == rest;
    } else if window != [] {
      if |window| == |search| {
        assert s[0..0 + |search|] == window;
      }
      assert !OccursAt(s, 0, search);
      assert s[1..] == window[1..] + rest;
    }
  }

  function Min(a: int, b: int): int
  {
    if a <= b then a else b
  }

  /** How many bytes at the front of `pending` the signed `read()` returns
      before it returns -1: the bytes before the first 0xFF, or all of them. */
  function ClearRun(pending: seq<JByte>): (k: nat)
    ensures k <= |pending|
    ensures forall j :: 0 <= j < k ==> pending[j] != -1
    ensures k < |pending| ==> pending[k] == -1
  {
    if pending == [] || pending[0] == -1 then 0 else 1 + ClearRun(pending[1..])
  }

  /** How many bytes a loop of signed reads that stops at -1 or after `limit`
      rounds consumes: the `k` it counts, plus the 0xFF that stopped it. */
  function SignedConsumed(pending: seq<JByte>, limit: int): (c: nat)
    ensures c <= |pending|
  {
    var k := if limit <= 0 then 0 else Min(limit, ClearRun(pending));
    if k < limit && k < |pending| then k + 1 else k
  }

  /** As written, `read(b, 0, 2)` on a stream whose next byte is 0xFF stores
      nothing and reports the end, though a byte follows it. */
  lemma SignedReadIntoStopsAtFF()
    ensures ClearRun([-1 as JByte, 0x41]) == 0
    ensures SignedConsumed([-1 as JByte, 0x41], 2) == 1
  {
  }

  class ReplacingInputStream {
    const inBuffer: CircularByteBuffer
    const outBuffer: CircularByteBuffer
    const search: seq<JByte>
    const replacement: seq<JByte>
    /** The bytes the delegate stream has still to deliver. */
    var delegate: seq<JByte>

    ghost predicate Valid()
      reads this, inBuffer, outBuffer
    {
      && inBuffer != outBuffer && inBuffer.buf != outBuffer.buf
      && inBuffer.Valid() && outBuffer.Valid()
      && inBuffer.size == |search| && outBuffer.size == |replacement|
      && |search| >= 1 && |replacement| >= 1
    }

    /** Everything the stream has still to deliver: the bytes waiting in
        `outBuffer`, then the window and the rest of the delegate with the
        pattern replaced. */
    ghost function Pending(): seq<JByte>
      reads this, inBuffer, outBuffer, inBuffer.buf, outBuffer.buf
      requires Valid()
    {
      outBuffer.Contents() + ReplaceAll(inBuffer.Contents() + delegate, search, replacement)
    }

    /** Both patterns must be non-empty. An empty search gives a window of
        capacity 0, which is always full and always equals the search, so the
        replacement is emitted forever. An empty replacement gives an output
        buffer of capacity 0: a match leaves it empty, so `read` reports the end
        at once, and the first byte that does not match overflows it. */
    constructor(delegate: seq<JByte>, search: seq<JByte>, replacement: seq<JByte>)
      requires |search| >= 1 && |replacement| >= 1
      ensures Valid() && Pending() == ReplaceAll(delegate, search, replacement)
      ensures fresh(inBuffer) && fresh(outBuffer) && fresh(inBuffer.buf) && fresh(outBuffer.buf)
    {
      this.delegate := delegate;
      this.search := search;
      this.replacement := replacement;
      inBuffer := new CircularByteBuffer(|search|);
      outBuffer := new CircularByteBuffer(|replacement|);
      new;
      assert inBuffer.Contents() + delegate == delegate;
    }

    /** `super.read()`: the delegate's next byte as 0 to 255, or -1. */
    method ReadDelegate() returns (v: int)
      requires Valid()
      modifies this
      ensures Valid()
      ensures old(delegate) == [] ==> v == -1 && delegate == []
      ensures old(delegate) != [] ==> v == Unsigned(old(delegate)[0]) && delegate == old(delegate)[1..]
    {
      if delegate == [] {
        return -1;
      }
      v := Unsigned(delegate[0]);
      delegate := delegate[1..];
    }

    /** The read-ahead loop of `read()`: pulls bytes from the delegate into
        the window until it is full or the delegate is exhausted. */
    method FillWindow()
      requires Valid()
      modifies this, inBuffer, inBuffer.buf
      ensures Valid()
      ensures inBuffer.Contents() + delegate == old(inBuffer.Contents() + delegate)
      ensures |inBuffer.Contents()| == |search| || delegate == []
    {
      while inBuffer.length < |search|
        invariant Valid()
        invariant inBuffer.Contents() + delegate == old(inBuffer.Contents() + delegate)
        decreases |delegate|
      {
        ghost var window := inBuffer.Contents();
        ghost var rest := delegate;
        var next := ReadDelegate();
        if next == -1 {
          break;
        }
        assert rest == [ToByte(next)] + delegate;
        var put := inBuffer.Put(ToByte(next));
        assert window + [ToByte(next)] + delegate == window + rest;
      }
    }

    /** The first part of `read()`: when nothing waits in `outBuffer`, fill
        the window from the delegate and move either the replacement (the
        window matches) or the window's first byte to `outBuffer`. What the
        stream will deliver does not change, and `outBuffer` is left empty
        only at the end of the stream. */
    method Refill()
      requires Valid()
      modifies this, inBuffer, outBuffer, inBuffer.buf, outBuffer.buf
      ensures Valid()
      ensures Pending() == old(Pending())
      ensures outBuffer.Contents() == [] ==> Pending() == []
    {
      var empty := outBuffer.IsEmpty();
      if !empty {
        return;
      }
      ghost var before := Pending();
      FillWindow();
      ghost var window := inBuffer.Contents();
      ghost var rest := delegate;
      assert before == ReplaceAll(window + rest, search, replacement);
      ReplaceAllStep(window, rest, search, replacement);
      var matches := inBuffer.EqualsBytes(search);
      if matches {
        EmitReplacement();
        assert inBuffer.Contents() + delegate == rest;
        assert Pending() == replacement + ReplaceAll(rest, search, replacement) == before;
      } else {
        var isEmpty := inBuffer.IsEmpty();
        if !isEmpty {
          EmitFirstByte();
          assert inBuffer.Contents() + delegate == window[1..] + rest;
          assert Pending() == [window[0]] + ReplaceAll(window[1..] + rest, search, replacement) == before;
        } else {
          assert Pending() == ReplaceAll(window + rest, search, replacement) == before;
        }
      }
    }

    /** A matching window: clear it and put the replacement in `outBuffer`. */
    method EmitReplacement()
      requires Valid() && outBuffer.Contents() == [] && inBuffer.Contents() == search
      modifies inBuffer, outBuffer, inBuffer.buf, outBuffer.buf
      ensures Valid()
      ensures inBuffer.Contents() == [] && outBuffer.Contents() == replacement
    {
      inBuffer.Clear();
      var put := outBuffer.PutAll(replacement);
    }

    /** A window that does not match: move its first byte to `outBuffer`. */
    method EmitFirstByte()
      requires Valid() && outBuffer.Contents() == [] && inBuffer.Contents() != []
      modifies inBuffer, outBuffer, inBuffer.buf, outBuffer.buf
      ensures Valid()
      ensures inBuffer.Contents() == old(inBuffer.Contents())[1..]
      ensures outBuffer.Contents() == [old(inBuffer.Contents())[0]]
    {
      var b := inBuffer.Get();
      var put := outBuffer.Put(b.value);
    }

    /** `read()` as written: the next byte sign-extended to an `int`, or -1
        at the end of the stream. */
    method Read() returns (r: int)
      requires Valid()
      modifies this, inBuffer, outBuffer, inBuffer.buf, outBuffer.buf
      ensures Valid()
      ensures r == SignedRead(old(Pending()))
      ensures Pending() == if old(Pending()) == [] then [] else old(Pending())[1..]
    {
      Refill();
      var empty := outBuffer.IsEmpty();
      if empty {
        return -1;
      }
      var b := outBuffer.Get();
      r := b.value as int;
    }

    /** `read()` returning the next byte as 0 to 255, as `InputStream`
        requires, or -1 at the end of the stream. */
    method ReadUnsigned() returns (r: int)
      requires Valid()
      modifies this, inBuffer, outBuffer, inBuffer.buf, outBuffer.buf
      ensures Valid()
      ensures r == UnsignedRead(old(Pending()))
      ensures Pending() == if old(Pending()) == [] then [] else old(Pending())[1..]
    {
      Refill();
      var empty := outBuffer.IsEmpty();
      if empty {
        return -1;
      }
      var b := outBuffer.Get();
      r := Unsigned(b.value);
    }

    /** One round of `read(b, off, len)` as written: the signed `read()`; a
        value other than -1 is stored at `at`. */
    method ReadOneInto(b: array<JByte>, at: nat) returns (stored: bool)
      requires Valid() && at < b.Length
      requires b != inBuffer.buf && b != outBuffer.buf
      modifies this, inBuffer, outBuffer, inBuffer.buf, outBuffer.buf, b
      ensures Valid()
      ensures stored <==> old(Pending()) != [] && old(Pending())[0] != -1
      ensures Pending() == if old(Pending()) == [] then [] else old(Pending())[1..]
      ensures forall j :: 0 <= j < b.Length ==> b[j] == if j == at && stored then old(Pending())[0] else old(b[j])
    {
      var value := Read();
      if value == -1 {
        return false;
      }
      b[at] := value as JByte;
      stored := true;
    }

    /** `read(b, off, len)` as written: stores the delivered bytes from `off`
        on until `len` are stored or `read()` returns -1, which it does at the
        end and also on a 0xFF byte, which is then consumed. Returns how many
        were stored, or -1 when none was and `len > 0`. */
    method ReadInto(b: array<JByte>, off: nat, len: nat) returns (n: int)
      requires Valid() && off + len <= b.Length
      requires b != inBuffer.buf && b != outBuffer.buf
      modifies this, inBuffer, outBuffer, inBuffer.buf, outBuffer.buf, b
      ensures Valid()
      ensures var k := Min(len, ClearRun(old(Pending())));
        && Pending() == old(Pending())[SignedConsumed(old(Pending()), len)..]
        && (forall j :: 0 <= j < b.Length ==> b[j] == if off <= j < off + k then old(Pending())[j - off] else old(b[j]))
        && n == if k == 0 && len > 0 then -1 else k
    {
      ghost var pending := Pending();
      var i := 0;
      while i < len
        invariant Valid() && 0 <= i <= len && i <= ClearRun(pending)
        invariant Pending() == pending[i..]
        invariant forall j :: 0 <= j < b.Length ==> b[j] == if off <= j < off + i then pending[j - off] else old(b[j])
        decreases len - i
      {
        var stored := ReadOneInto(b, i + off);
        if !stored {
          if i < |pending| {
            assert pending[i..][1..] == pending[i + 1..];
          }
          n := if i == 0 && len > 0 then -1 else i;
          return;
        }
        assert pending[i..][1..] == pending[i + 1..];
        i := i + 1;
      }
      n := if i == 0 && len > 0 then -1 else i;
    }

    /** `skip(n)` as written: consumes delivered bytes until `n` are counted
        or `read()` returns -1, at the end or on a 0xFF byte, which is then
        consumed too; returns the count. */
    method Skip(n: int) returns (r: int)
      requires Valid()
      modifies this, inBuffer, outBuffer, inBuffer.buf, outBuffer.buf
      ensures Valid()
      ensures r == if n <= 0 then 0 else Min(n, ClearRun(old(Pending())))
      ensures Pending() == old(Pending())[SignedConsumed(old(Pending()), n)..]
    {
      ghost var pending := Pending();
      var i := 0;
      while i < n
        invariant Valid() && 0 <= i <= ClearRun(pending) && (if n > 0 then i <= n else i == 0)
        invariant Pending() == pending[i..]
        decreases n - i
      {
        var value := Read();
        if value == -1 {
          if i < |pending| {
            assert pending[i..][1..] == pending[i + 1..];
          }
          return i;
        }
        assert pending[i..][1..] == pending[i + 1..];
        i := i + 1;
      }
      r := i;
    }

    /** One round of the corrected `read(b, off, len)`: the next delivered
        byte, if any, is stored at `at`. */
    method ReadOneIntoUnsigned(b: array<JByte>, at: nat) returns (stored: bool)
      requires Valid() && at < b.Length
      requires b != inBuffer.buf && b != outBuffer.buf
      modifies this, inBuffer, outBuffer, inBuffer.buf, outBuffer.buf, b
      ensures Valid()
      ensures stored <==> old(Pending()) != []
      ensures Pending() == if old(Pending()) == [] then [] else old(Pending())[1..]
      ensures forall j :: 0 <= j < b.Length ==> b[j] == if j == at && stored then old(Pending())[0] else old(b[j])
    {
      var value := ReadUnsigned();
      if value == -1 {
        return false;
      }
      b[at] := ToByte(value);
      stored := true;
    }

    /** `read(b, off, len)` over the corrected unsigned read: stores up to
        `len` delivered bytes from `off` on and returns how many, or -1 when
        `len > 0` and the stream has ended. */
    method ReadIntoUnsigned(b: array<JByte>, off: nat, len: nat) returns (n: int)
      requires Valid() && off + len <= b.Length
      requires b != inBuffer.buf && b != outBuffer.buf
      modifies this, inBuffer, outBuffer, inBuffer.buf, outBuffer.buf, b
      ensures Valid()
      ensures var k := Min(len, |old(Pending())|);
        && Pending() == old(Pending())[k..]
        && (forall j :: 0 <= j < b.Length ==> b[j] == if off <= j < off + k then old(Pending())[j - off] else old(b[j]))
        && n == if k == 0 && len > 0 then -1 else k
    {
      ghost var pending := Pending();
      var i := 0;
      while i < len
        invariant Valid() && 0 <= i <= len && i <= |pending|
        invariant Pending() == pending[i..]
        invariant forall j :: 0 <= j < b.Length ==> b[j] == if off <= j < off + i then pending[j - off] else old(b[j])
        decreases len - i
      {
        var stored := ReadOneIntoUnsigned(b, i + off);
        if !stored {
          break;
        }
        assert pending[i..][1..] == pending[i + 1..];
        i := i + 1;
      }
      n := if i == 0 && len > 0 then -1 else i;
    }

    /** `skip(n)` over the corrected unsigned read: consumes up to `n`
        delivered bytes and returns how many. */
    method SkipUnsigned(n: int) returns (r: int)
      requires Valid()
      modifies this, inBuffer, outBuffer, inBuffer.buf, outBuffer.buf
      ensures Valid()
      ensures r == if n <= 0 then 0 else Min(n, |old(Pending())|)
      ensures Pending() == old(Pending())[r..]
    {
      ghost var pending := Pending();
      var i := 0;
      while i < n
        invariant Valid() && 0 <= i <= |pending| && (if n > 0 then i <= n else i == 0)
        invariant Pending() == pending[i..]
        decreases n - i
      {
        var value := ReadUnsigned();
        if value == -1 {
          break;
        }
        assert pending[i..][1..] == pending[i + 1..];
        i := i + 1;
      }
      r := i;
    }

    /** `available()`: the bytes in both buffers plus `delegateAvailable`, the
        delegate's own estimate, which is at most what it still holds. It is
        zero when the stream has nothing left, and never more than the bytes
        the buffers and the delegate hold. */
    method Available(delegateAvailable: int) returns (r: int)
      requires Valid()
      requires 0 <= delegateAvailable <= |delegate|
      ensures r == |inBuffer.Contents()| + |outBuffer.Contents()| + delegateAvailable
      ensures Pending() == [] ==> r == 0
      ensures |outBuffer.Contents()| <= r <= |inBuffer.Contents()| + |outBuffer.Contents()| + |delegate|
    {
      var a := inBuffer.Length();
      var c := outBuffer.Length();
      r := a + c + delegateAvailable;
      ReplaceAllEmpty(inBuffer.Contents() + delegate, search, replacement);
    }

    method MarkSupported() returns (b: bool)
      ensures !b
    {
      b := false;
    }

    /** `mark` and `reset` always fail. */
    method Mark(readLimit: int) returns (r: Outcome<string>)
      ensures r == Fail("Mark/reset is not supported.")
    {
      r := Fail("Mark/reset is not supported.");
    }

    method Reset() returns (r: Outcome<string>)
      ensures r == Fail("Mark/reset is not supported.")
    {
      r := Fail("Mark/reset is not supported.");
    }
  }
}
