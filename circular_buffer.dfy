// `CircularByteBuffer`: a bounded FIFO of bytes kept in a fixed array, with
// the read position `nextGet`, the write position `nextPut` and the number of
// bytes held, `length`, all updated in place.
module CircularBuffer {
  import opened Wrappers

  /** Java's signed `byte`. */
  newtype JByte = x: int | -128 <= x < 128

  /** `BufferOverflowException` and `BufferUnderflowException`. */
  datatype BufferError = Overflow | Underflow

  class CircularByteBuffer {
    const size: nat
    const buf: array<JByte>
    var length: nat
    var nextGet: nat
    var nextPut: nat

    /** The array slot `x` positions past the start of an array of `n` slots,
        for `x < 2 * n`: the index after wrapping around once. */
    static function Wrap(x: nat, n: nat): nat
    {
      if x < n then x else x - n
    }

    ghost predicate Valid()
      reads this
    {
      && buf.Length == size
      && length <= size
      && (size == 0 ==> nextGet == 0)
      && (size > 0 ==> nextGet < size)
      && nextPut == Wrap(nextGet + length, size)
    }

    /** The bytes held, oldest first. */
    function Contents(): (s: seq<JByte>)
      reads this, buf
      requires Valid()
      ensures |s| == length
    {
      seq(length, i requires 0 <= i < length && Valid() reads this, buf => buf[Wrap(nextGet + i, size)])
    }

    /** `new CircularByteBuffer(size)`: an empty buffer of that capacity. */
    constructor(size: nat)
      ensures Valid() && this.size == size && Contents() == []
      ensures fresh(buf)
    {
      this.size := size;
      buf := new JByte[size];
      length := 0;
      nextGet := 0;
      nextPut := 0;
    }

    method Capacity() returns (n: nat)
      ensures n == size
    {
      n := size;
    }

    method Length() returns (n: nat)
      requires Valid()
      ensures n == |Contents()|
    {
      n := length;
    }

    method IsEmpty() returns (b: bool)
      requires Valid()
      ensures b <==> Contents() == []
    {
      b := length == 0;
    }

    method IsFull() returns (b: bool)
      requires Valid()
      ensures b <==> |Contents()| == size
    {
      b := length == size;
    }

    /** `clear` forgets every byte held. */
    method Clear()
      requires Valid()
      modifies this
      ensures Valid() && Contents() == []
    {
      length := 0;
      nextGet := 0;
      nextPut := 0;
    }

    /** `equals(byte[])`: the bytes held, read from the oldest, are exactly
        `arr`. */
    method EqualsBytes(arr: seq<JByte>) returns (b: bool)
      requires Valid()
      ensures b <==> arr == Contents()
    {
      if |arr| != length {
        return false;
      }
      var i := 0;
      while i < length
        invariant 0 <= i <= length
        invariant arr[..i] == Contents()[..i]
      {
        WrapIsMod(nextGet + i);
        if arr[i] != buf[(nextGet + i) % size] {
          assert arr[i] != Contents()[i];
          return false;
        }
        i := i + 1;
      }
      assert arr == arr[..i] && Contents() == Contents()[..i];
      return true;
    }

    lemma WrapIsMod(x: nat)
      requires 0 < size && x < 2 * size
      ensures Wrap(x, size) == x % size
    {
      if x >= size {
        assert x - size < size;
      }
    }

    /** `get` removes and returns the oldest byte; on an empty buffer it
        underflows and nothing changes. */
    method Get() returns (r: Result<JByte, BufferError>)
      requires Valid()
      modifies this
      ensures Valid()
      ensures old(Contents()) == [] ==> r == Err(Underflow) && Contents() == []
      ensures old(Contents()) != [] ==> r == Ok(old(Contents())[0]) && Contents() == old(Contents())[1..]
    {
      if length == 0 {
        return Err(Underflow);
      }
      ghost var before := Contents();
      ghost var start := nextGet;
      assert before[0] == buf[Wrap(start + 0, size)];
      assert buf[start] == before[0];
      length := length - 1;
      var b := buf[nextGet];
      nextGet := nextGet + 1;
      if nextGet >= size {
        nextGet := 0;
      }
      forall k | 0 <= k < length
        ensures Contents()[k] == before[k + 1]
      {
        assert before[k + 1] == buf[Wrap(start + k + 1, size)];
        assert Wrap(nextGet + k, size) == Wrap(start + k + 1, size);
      }
      assert Contents() == before[1..];
      r := Ok(b);
    }

    /** `put(byte)` appends one byte; on a full buffer it overflows and
        nothing changes. */
    method Put(b: JByte) returns (r: Outcome<BufferError>)
      requires Valid()
      modifies this, buf
      ensures Valid()
      ensures |old(Contents())| == size ==> r == Fail(Overflow) && Contents() == old(Contents())
      ensures |old(Contents())| < size ==> r == Pass && Contents() == old(Contents()) + [b]
    {
      if length == size {
        return Fail(Overflow);
      }
      ghost var before := Contents();
      ghost var slot := nextPut;
      length := length + 1;
      buf[nextPut] := b;
      nextPut := nextPut + 1;
      if nextPut >= size {
        nextPut := 0;
      }
      forall k | 0 <= k < length - 1
        ensures Contents()[k] == before[k]
      {
        assert Wrap(nextGet + k, size) != slot;
        assert before[k] == old(buf[Wrap(nextGet + k, size)]);
      }
      assert Contents() == before + [b];
      r := Pass;
    }

    /** `put(byte[])` puts the bytes in order; when they do not all fit, the
        ones that fit are kept and the first one that does not overflows. */
    method PutAll(bytes: seq<JByte>) returns (r: Outcome<BufferError>)
      requires Valid()
      modifies this, buf
      ensures Valid()
      ensures |old(Contents())| + |bytes| <= size ==> r == Pass && Contents() == old(Contents()) + bytes
      ensures |old(Contents())| + |bytes| > size ==>
        r == Fail(Overflow) && Contents() == old(Contents()) + bytes[..size - |old(Contents())|]
    {
      ghost var before := Contents();
      var i := 0;
      while i < |bytes|
        invariant 0 <= i <= |bytes|
        invariant Valid() && |before| + i <= size
        invariant Contents() == before + bytes[..i]
      {
        r := Put(bytes[i]);
        if r.Fail? {
          return;
        }
        assert bytes[..i + 1] == bytes[..i] + [bytes[i]];
        i := i + 1;
      }
      assert bytes[..i] == bytes;
      r := Pass;
    }
  }
}
