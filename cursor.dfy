/**
 * Sequential reads from a byte buffer with a position (java.nio.ByteBuffer's
 * get/getInt/getLong/get(byte[]), Netty ByteBuf's readInt/readBytes). The pure
 * parsers say what one read yields and leaves; the ByteCursor class is the
 * buffer whose position the reads advance.
 */
module Cursor {
  import opened Wrappers
  import opened Bytes
  import opened JStrings

  /** A value read from the front of a byte string, and the bytes after it. */
  datatype Parsed<+T> = Parsed(value: T, rest: seq<byte>)

  type ParseResult<T> = Result<Parsed<T>, Exception>

  /** get(): one byte. */
  function ParseByte(s: seq<byte>): (r: ParseResult<byte>)
    ensures r.Ok? <==> |s| >= 1
    ensures r.Ok? ==> r.value.value == s[0] && r.value.rest == s[1..]
    ensures r.Err? ==> r.error == Underflow
  {
    if |s| < 1 then Err(Underflow) else Ok(Parsed(s[0], s[1..]))
  }

  /** getInt(): four bytes, big-endian two's complement. */
  function ParseInt(s: seq<byte>): (r: ParseResult<int>)
    ensures r.Ok? <==> |s| >= 4
    ensures r.Ok? ==> r.value.value == ReadInt(s) && r.value.rest == s[4..]
    ensures r.Err? ==> r.error == Underflow
  {
    if |s| < 4 then Err(Underflow) else Ok(Parsed(ReadInt(s), s[4..]))
  }

  /** getLong(): eight bytes, big-endian two's complement. */
  function ParseLong(s: seq<byte>): (r: ParseResult<int>)
    ensures r.Ok? <==> |s| >= 8
    ensures r.Ok? ==> r.value.value == ReadLong(s) && r.value.rest == s[8..]
    ensures r.Err? ==> r.error == Underflow
  {
    if |s| < 8 then Err(Underflow) else Ok(Parsed(ReadLong(s), s[8..]))
  }

  /** getInt after putInt: the int written, and the buffer just after it. */
  lemma ParseIntBytes(n: int, tail: seq<byte>)
    requires IsInt(n)
    ensures ParseInt(IntBytes(n) + tail) == Ok(Parsed(n, tail))
  {
    IntRoundTrip(n, tail);
    assert (IntBytes(n) + tail)[4..] == tail;
  }

  /** get(byte[|b|]) on b followed by more bytes reads exactly b. */
  lemma ParseBytesPrefix(b: seq<byte>, rest: seq<byte>)
    ensures ParseBytes(b + rest, |b|) == Ok(Parsed(b, rest))
  {
    assert (b + rest)[..|b|] == b && (b + rest)[|b|..] == rest;
  }

  /**
   * `byte[] b = new byte[n]; buf.get(b)`: a negative n fails when the array
   * is allocated, a too-large n when the buffer underflows.
   */
  function ParseBytes(s: seq<byte>, n: int): (r: ParseResult<seq<byte>>)
    ensures r.Ok? <==> 0 <= n <= |s|
    ensures r.Ok? ==> r.value.value == s[..n] && r.value.rest == s[n..]
    ensures n < 0 ==> r == Err(NegativeArraySize)
    ensures 0 <= n && |s| < n ==> r == Err(Underflow)
  {
    if n < 0 then Err(NegativeArraySize)
    else if |s| < n then Err(Underflow)
    else Ok(Parsed(s[..n], s[n..]))
  }

  /** `new String(bytes)` after reading an int length and that many bytes. */
  function ParseString(s: seq<byte>): (r: ParseResult<seq<char>>)
    ensures r.Ok? <==> |s| >= 4 && 0 <= ReadInt(s) <= |s| - 4
    ensures |s| < 4 ==> r == Err(Underflow)
    ensures |s| >= 4 && ReadInt(s) < 0 ==> r == Err(NegativeArraySize)
    ensures |s| >= 4 && ReadInt(s) > |s| - 4 ==> r == Err(Underflow)
    ensures r.Ok? ==> r.value.rest == s[4 + ReadInt(s)..]
    ensures r.Ok? ==> r.value.value == NewString(s[4..4 + ReadInt(s)])
  {
    match ParseInt(s)
    case Err(e) => Err(e)
    case Ok(n) =>
      match ParseBytes(n.rest, n.value)
      case Err(e) => Err(e)
      case Ok(b) => Ok(Parsed(NewString(b.value), b.rest))
  }

  /** A byte array with a read position: ByteBuffer.wrap(bytes) or Unpooled.wrappedBuffer(bytes). */
  class ByteCursor {
    const data: seq<byte>
    var position: nat

    ghost predicate Valid()
      reads this
    {
      position <= |data|
    }

    /** The bytes not yet read. */
    function Remaining(): seq<byte>
      reads this
      requires Valid()
    {
      data[position..]
    }

    constructor Wrap(bytes: seq<byte>)
      ensures Valid() && data == bytes && position == 0 && Remaining() == bytes
    {
      data := bytes;
      position := 0;
    }

    /** hasRemaining() */
    function HasRemaining(): (r: bool)
      reads this
      requires Valid()
      ensures r <==> Remaining() != []
    {
      position < |data|
    }

    method Get() returns (r: Result<byte, Exception>)
      requires Valid()
      modifies this
      ensures Valid()
      ensures var p := ParseByte(old(Remaining()));
        && (p.Ok? ==> r == Ok(p.value.value) && Remaining() == p.value.rest)
        && (p.Err? ==> r == Err(p.error) && position == old(position))
    {
      if position + 1 > |data| {
        return Err(Underflow);
      }
      assert data[position..][1..] == data[position + 1..];
      r := Ok(data[position]);
      position := position + 1;
    }

    method GetInt() returns (r: Result<int, Exception>)
      requires Valid()
      modifies this
      ensures Valid()
      ensures var p := ParseInt(old(Remaining()));
        && (p.Ok? ==> r == Ok(p.value.value) && Remaining() == p.value.rest)
        && (p.Err? ==> r == Err(p.error) && position == old(position))
    {
      if position + 4 > |data| {
        return Err(Underflow);
      }
      assert data[position..][..4] == data[position..position + 4][..4];
      assert data[position..][4..] == data[position + 4..];
      r := Ok(ReadInt(data[position..position + 4]));
      position := position + 4;
    }

    method GetBytes(n: int) returns (r: Result<seq<byte>, Exception>)
      requires Valid()
      modifies this
      ensures Valid()
      ensures var p := ParseBytes(old(Remaining()), n);
        && (p.Ok? ==> r == Ok(p.value.value) && Remaining() == p.value.rest)
        && (p.Err? ==> r == Err(p.error) && position == old(position))
    {
      if n < 0 {
        return Err(NegativeArraySize);
      }
      if position + n > |data| {
        return Err(Underflow);
      }
      assert data[position..][..n] == data[position..position + n];
      assert data[position..][n..] == data[position + n..];
      r := Ok(data[position..position + n]);
      position := position + n;
    }

    /** Reads the rest of the buffer: `new byte[readableBytes()]` then readBytes. */
    method GetAll() returns (b: seq<byte>)
      requires Valid()
      modifies this
      ensures Valid() && b == old(Remaining()) && Remaining() == []
    {
      b := data[position..];
      position := |data|;
    }

    /** stringFromBytes: an int length, then that many bytes as a string. */
    method GetString() returns (r: Result<seq<char>, Exception>)
      requires Valid()
      modifies this
      ensures Valid()
      ensures var p := ParseString(old(Remaining()));
        && (p.Ok? ==> r == Ok(p.value.value) && Remaining() == p.value.rest)
        && (p.Err? ==> r.Err? && r.error == p.error)
    {
      var n := GetInt();
      if n.Err? {
        return Err(n.error);
      }
      var b := GetBytes(n.value);
      if b.Err? {
        return Err(b.error);
      }
      r := Ok(NewString(b.value));
    }
  }
}
