/** Types and little-endian integers shared by the component models. */
module Common {

  datatype Option<+T> = None | Some(value: T)

  type byte = x: int | 0 <= x < 256
  type bytes = seq<byte>

  const U16: nat := 0x1_0000
  const U32: nat := 0x1_0000_0000
  const U64: nat := 0x1_0000_0000_0000_0000

  function Le16(v: nat): (r: bytes)
    requires v < U16
    ensures |r| == 2
  {
    [v % 256, v / 256]
  }

  function Le32(v: nat): (r: bytes)
    requires v < U32
    ensures |r| == 4
  {
    Le16(v % U16) + Le16(v / U16)
  }

  function U16At(s: bytes, i: nat): (v: nat)
    requires i + 2 <= |s|
    ensures v < U16
  {
    var b0: nat, b1: nat := s[i], s[i + 1];
    b0 + 256 * b1
  }

  function U32At(s: bytes, i: nat): (v: nat)
    requires i + 4 <= |s|
    ensures v < U32
  {
    U16At(s, i) + U16 * U16At(s, i + 2)
  }

  lemma U16AtBytes(s: bytes, i: nat)
    requires i + 2 <= |s|
    ensures Le16(U16At(s, i)) == s[i..i + 2]
  {
  }

  lemma U32AtBytes(s: bytes, i: nat)
    requires i + 4 <= |s|
    ensures Le32(U32At(s, i)) == s[i..i + 4]
  {
    var v, lo, hi := U32At(s, i), U16At(s, i), U16At(s, i + 2);
    assert v % U16 == lo && v / U16 == hi;
    U16AtBytes(s, i);
    U16AtBytes(s, i + 2);
    assert s[i..i + 4] == s[i..i + 2] + s[i + 2..i + 4];
  }

  lemma Le16Value(v: nat, s: bytes, i: nat)
    requires v < U16 && i + 2 <= |s| && s[i..i + 2] == Le16(v)
    ensures U16At(s, i) == v
  {
    assert s[i] == Le16(v)[0] && s[i + 1] == Le16(v)[1];
  }

  lemma Le32Value(v: nat, s: bytes, i: nat)
    requires v < U32 && i + 4 <= |s| && s[i..i + 4] == Le32(v)
    ensures U32At(s, i) == v
  {
    assert s[i..i + 2] == s[i..i + 4][..2] == Le16(v % U16);
    assert s[i + 2..i + 4] == s[i..i + 4][2..] == Le16(v / U16);
    Le16Value(v % U16, s, i);
    Le16Value(v / U16, s, i + 2);
  }

  /** CLIPRDR_FORMAT. */
  datatype Format = Format(id: nat, name: Option<bytes>)

  type u16 = x: int | 0 <= x < 0x1_0000
  type u32 = x: int | 0 <= x < 0x1_0000_0000

  /** Sixteen-bit units on the wire. */
  function Halves(hs: seq<u16>): (r: bytes)
    ensures |r| == 2 * |hs|
  {
    if |hs| == 0 then [] else Le16(hs[0]) + Halves(hs[1..])
  }

  lemma Associates(a: bytes, b: bytes, c: bytes)
    ensures (a + b) + c == a + (b + c)
  {
  }

  /** Two buffers that agree from a place on hold the same words there. */
  lemma SameWords(a: bytes, i: nat, b: bytes, j: nat, k: nat)
    requires i <= |a| && j <= |b| && a[i..] == b[j..] && j + k + 2 <= |b|
    ensures i + k + 2 <= |a| && U16At(a, i + k) == U16At(b, j + k)
    ensures j + k + 4 <= |b| ==> i + k + 4 <= |a| && U32At(a, i + k) == U32At(b, j + k)
  {
    assert |a[i..]| == |b[j..]|;
    assert a[i..][k] == b[j..][k] && a[i..][k + 1] == b[j..][k + 1];
    if j + k + 4 <= |b| { assert a[i..][k + 2] == b[j..][k + 2] && a[i..][k + 3] == b[j..][k + 3]; }
  }

  /** A byte buffer with a capacity and a position (wStream).  Every write states as its precondition
      that it stays within the capacity, every read that it stays within the data. */
  class Stream {
    var buffer: bytes
    var position: nat

    ghost predicate Valid()
      reads this
    {
      position <= |buffer|
    }

    ghost function Written(): bytes
      requires Valid()
      reads this
    {
      buffer[..position]
    }

    ghost function Rest(): bytes
      requires Valid()
      reads this
    {
      buffer[position..]
    }

    constructor (data: bytes)
      ensures Valid() && buffer == data && position == 0
    {
      buffer := data;
      position := 0;
    }

    /** Stream_EnsureRemainingCapacity; by how much more than needed it grows is left open. */
    method EnsureRemainingCapacity(n: nat, more: bytes)
      requires Valid()
      modifies this`buffer
      ensures Valid() && position + n <= |buffer| && Written() == old(Written())
    {
      if position + n > |buffer| {
        buffer := buffer + seq(n, _ => 0) + more;
      }
    }

    method WriteU8(b: byte)
      requires Valid() && position < |buffer|
      modifies this
      ensures Valid() && |buffer| == old(|buffer|) && position == old(position) + 1
      ensures Written() == old(Written()) + [b]
    {
      buffer := buffer[position := b];
      position := position + 1;
    }

    method ReadU8() returns (b: byte)
      requires Valid() && position < |buffer|
      modifies this`position
      ensures Valid() && position == old(position) + 1 && b == buffer[old(position)]
    {
      b := buffer[position];
      position := position + 1;
    }

    method Write(data: bytes)
      requires Valid() && position + |data| <= |buffer|
      modifies this
      ensures Valid() && |buffer| == old(|buffer|) && position == old(position) + |data|
      ensures Written() == old(Written()) + data
    {
      buffer := buffer[..position] + data + buffer[position + |data|..];
      position := position + |data|;
    }

    method Read(n: nat) returns (data: bytes)
      requires Valid() && position + n <= |buffer|
      modifies this`position
      ensures Valid() && position == old(position) + n && data == buffer[old(position)..position]
    {
      data := buffer[position..position + n];
      position := position + n;
    }

    method ReadU16() returns (v: nat)
      requires Valid() && position + 2 <= |buffer|
      modifies this`position
      ensures Valid() && position == old(position) + 2 && v == U16At(buffer, old(position))
    {
      v := U16At(buffer, position);
      position := position + 2;
    }

    method ReadU32() returns (v: nat)
      requires Valid() && position + 4 <= |buffer|
      modifies this`position
      ensures Valid() && position == old(position) + 4 && v == U32At(buffer, old(position))
    {
      v := U32At(buffer, position);
      position := position + 4;
    }

    method WriteU16(v: nat)
      requires Valid() && position + 2 <= |buffer| && v < U16
      modifies this
      ensures Valid() && |buffer| == old(|buffer|) && position == old(position) + 2
      ensures Written() == old(Written()) + Le16(v)
    {
      Write(Le16(v));
    }

    method WriteU32(v: nat)
      requires Valid() && position + 4 <= |buffer| && v < U32
      modifies this
      ensures Valid() && |buffer| == old(|buffer|) && position == old(position) + 4
      ensures Written() == old(Written()) + Le32(v)
    {
      Write(Le32(v));
    }
  }
}
