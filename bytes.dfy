/**
 * Octets and the fixed-width big-endian integers that java.nio.ByteBuffer and
 * Netty's ByteBuf read and write (putInt/getInt, putLong/getLong): two's
 * complement, most significant byte first.
 */
module Bytes {

  /** One octet, read as an unsigned value. */
  type byte = x: int | 0 <= x < 256

  const INT_MIN: int := -0x8000_0000
  const INT_MAX: int := 0x7FFF_FFFF
  const LONG_MIN: int := -0x8000_0000_0000_0000
  const LONG_MAX: int := 0x7FFF_FFFF_FFFF_FFFF

  /** Java `int` and `long` ranges. */
  predicate IsInt(x: int) { INT_MIN <= x <= INT_MAX }
  predicate IsLong(x: int) { LONG_MIN <= x <= LONG_MAX }

  function Pow256(n: nat): (r: int)
    ensures r >= 1
  {
    if n == 0 then 1 else 256 * Pow256(n - 1)
  }

  lemma Pow256Values()
    ensures Pow256(4) == 0x1_0000_0000
    ensures Pow256(8) == 0x1_0000_0000_0000_0000
  {
    assert Pow256(1) == 256;
    assert Pow256(2) == 0x1_0000;
    assert Pow256(3) == 0x100_0000;
    assert Pow256(4) == 0x1_0000_0000;
    assert Pow256(5) == 0x100_0000_0000;
    assert Pow256(6) == 0x1_0000_0000_0000;
    assert Pow256(7) == 0x100_0000_0000_0000;
  }

  /** The big-endian unsigned value of a byte string. */
  function Unsigned(s: seq<byte>): (r: int)
    ensures 0 <= r < Pow256(|s|)
  {
    if s == [] then 0 else Unsigned(s[..|s| - 1]) * 256 + s[|s| - 1]
  }

  /** The n-byte big-endian representation of x. */
  function UnsignedBytes(x: int, n: nat): (r: seq<byte>)
    requires 0 <= x < Pow256(n)
    ensures |r| == n
  {
    if n == 0 then [] else UnsignedBytes(x / 256, n - 1) + [x % 256]
  }

  /** Reading back an n-byte representation gives the value written. */
  lemma {:induction false} UnsignedRoundTrip(x: int, n: nat)
    requires 0 <= x < Pow256(n)
    ensures Unsigned(UnsignedBytes(x, n)) == x
  {
    if n > 0 {
      var r := UnsignedBytes(x, n);
      assert r[..n - 1] == UnsignedBytes(x / 256, n - 1);
      UnsignedRoundTrip(x / 256, n - 1);
    }
  }

  /** Dividing q * 256 + b by 256 recovers q and b. */
  lemma DivMod256(q: int, b: int)
    requires 0 <= b < 256
    ensures (q * 256 + b) / 256 == q && (q * 256 + b) % 256 == b
  {
  }

  /** Every byte string is the representation of its value: the encoding is a bijection. */
  lemma {:induction false} UnsignedBytesOfValue(s: seq<byte>)
    ensures UnsignedBytes(Unsigned(s), |s|) == s
  {
    if s != [] {
      var init, last := s[..|s| - 1], s[|s| - 1];
      var u := Unsigned(s);
      assert u == Unsigned(init) * 256 + last;
      DivMod256(Unsigned(init), last);
      UnsignedBytesOfValue(init);
      assert UnsignedBytes(u, |s|) == UnsignedBytes(u / 256, |s| - 1) + [u % 256];
      assert s == init + [last];
    }
  }

  /** The two's complement value of a non-empty byte string. */
  function Signed(s: seq<byte>): (r: int)
    requires |s| > 0
    ensures -Pow256(|s|) / 2 <= r < Pow256(|s|) / 2
  {
    var u := Unsigned(s);
    if u >= Pow256(|s|) / 2 then u - Pow256(|s|) else u
  }

  /** The n-byte two's complement representation of x. */
  function SignedBytes(x: int, n: nat): (r: seq<byte>)
    requires n > 0 && -Pow256(n) / 2 <= x < Pow256(n) / 2
    ensures |r| == n
  {
    UnsignedBytes(if x < 0 then x + Pow256(n) else x, n)
  }

  lemma {:induction false} SignedRoundTrip(x: int, n: nat)
    requires n > 0 && -Pow256(n) / 2 <= x < Pow256(n) / 2
    ensures Signed(SignedBytes(x, n)) == x
  {
    UnsignedRoundTrip(if x < 0 then x + Pow256(n) else x, n);
  }

  /** ByteBuffer.putInt: four bytes, most significant first. */
  function IntBytes(x: int): (r: seq<byte>)
    requires IsInt(x)
    ensures |r| == 4
  {
    Pow256Values();
    SignedBytes(x, 4)
  }

  /** ByteBuffer.getInt on the first four bytes. */
  function ReadInt(s: seq<byte>): (r: int)
    requires |s| >= 4
    ensures IsInt(r)
  {
    Pow256Values();
    Signed(s[..4])
  }

  /** ByteBuffer.putLong: eight bytes, most significant first. */
  function LongBytes(x: int): (r: seq<byte>)
    requires IsLong(x)
    ensures |r| == 8
  {
    Pow256Values();
    SignedBytes(x, 8)
  }

  /** ByteBuffer.getLong on the first eight bytes. */
  function ReadLong(s: seq<byte>): (r: int)
    requires |s| >= 8
    ensures IsLong(r)
  {
    Pow256Values();
    Signed(s[..8])
  }

  /** getInt looks at the first four bytes only. */
  lemma ReadIntPrefix(a: seq<byte>, b: seq<byte>)
    requires |a| >= 4
    ensures ReadInt(a + b) == ReadInt(a)
  {
    assert (a + b)[..4] == a[..4];
  }

  /** getInt after putInt gives the int written back, whatever follows it. */
  lemma IntRoundTrip(x: int, rest: seq<byte>)
    requires IsInt(x)
    ensures ReadInt(IntBytes(x) + rest) == x
  {
    Pow256Values();
    assert (IntBytes(x) + rest)[..4] == IntBytes(x);
    SignedRoundTrip(x, 4);
  }

  /** getLong after putLong gives the long written back, whatever follows it. */
  lemma LongRoundTrip(x: int, rest: seq<byte>)
    requires IsLong(x)
    ensures ReadLong(LongBytes(x) + rest) == x
  {
    Pow256Values();
    assert (LongBytes(x) + rest)[..8] == LongBytes(x);
    SignedRoundTrip(x, 8);
  }

  /** Every eight-byte string is the putLong image of the long it reads as. */
  lemma LongBytesOfRead(s: seq<byte>)
    requires |s| == 8
    ensures LongBytes(ReadLong(s)) == s
  {
    Pow256Values();
    assert s[..8] == s;
    UnsignedBytesOfValue(s);
  }

  /** Four bytes read as a negative int exactly when the top bit of the first one is set. */
  lemma {:induction false} ReadIntNegative(s: seq<byte>)
    requires |s| >= 4
    ensures ReadInt(s) < 0 <==> s[0] >= 128
  {
    Pow256Values();
    var t := s[..4];
    assert t[..3][..2][..1] == [s[0]];
    assert Unsigned([s[0]]) == s[0] by {
      assert [s[0]][..0] == [];
    }
    assert Unsigned(t[..3][..2]) == Unsigned([s[0]]) * 256 + s[1];
    assert Unsigned(t[..3]) == Unsigned(t[..3][..2]) * 256 + s[2];
    assert Unsigned(t) == Unsigned(t[..3]) * 256 + s[3];
    var b0: int, b1: int, b2: int, b3: int := s[0], s[1], s[2], s[3];
    assert Unsigned(t) == ((b0 * 256 + b1) * 256 + b2) * 256 + b3;
  }
}
