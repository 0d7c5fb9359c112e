/** Bytes, 16-bit transmission ids and the one-byte XOR-fold checksum that
    every frame of the payload builder ends with. */
module Bytes {

  /** `uint8_t`: XOR, wrap-around increment and decrement come with the type. */
  type Byte = bv8

  /** `uint16_t`, the width of a transmission id. */
  type Uint16 = x: int | 0 <= x < 0x1_0000

  /** XOR of all bytes, folded from the left starting at 0; the reference
      definition of `calculateXORChecksum`. */
  function Xor(data: seq<Byte>): Byte
  {
    if |data| == 0 then 0 else Xor(data[..|data| - 1]) ^ data[|data| - 1]
  }

  /** The loop of `calculateXORChecksum`: `checksum ^= byte` over the input in order. */
  method CalculateXorChecksum(data: seq<Byte>) returns (checksum: Byte)
    ensures checksum == Xor(data)
    ensures |data| == 0 ==> checksum == 0
  {
    checksum := 0;
    var i := 0;
    while i < |data|
      invariant 0 <= i <= |data|
      invariant checksum == Xor(data[..i])
    {
      assert data[..i + 1][..i] == data[..i];
      checksum := checksum ^ data[i];
      i := i + 1;
    }
    assert data[..i] == data;
  }

  /** The fold is a homomorphism from concatenation to XOR. */
  lemma {:induction false} XorAppend(a: seq<Byte>, b: seq<Byte>)
    ensures Xor(a + b) == Xor(a) ^ Xor(b)
    decreases |b|
  {
    if |b| == 0 {
      assert a + b == a;
    } else {
      var b' := b[..|b| - 1];
      assert (a + b)[..|a + b| - 1] == a + b';
      XorAppend(a, b');
    }
  }

  /** Replacing one byte changes the fold by exactly the difference of the old and new byte. */
  lemma XorUpdate(s: seq<Byte>, i: nat, v: Byte)
    requires i < |s|
    ensures Xor(s[i := v]) == Xor(s) ^ s[i] ^ v
  {
    var pre, post := s[..i], s[i + 1..];
    assert s == pre + [s[i]] + post;
    assert s[i := v] == pre + [v] + post;
    XorAppend(pre + [s[i]], post);
    XorAppend(pre + [v], post);
    XorAppend(pre, [s[i]]);
    XorAppend(pre, [v]);
  }

  /** The high byte of a 16-bit value, `id >> 8`. */
  function HighByte(id: Uint16): Byte
  {
    (id / 256) as Byte
  }

  /** The low byte of a 16-bit value, `id & 0xFF`. */
  function LowByte(id: Uint16): Byte
  {
    (id % 256) as Byte
  }

  /** `(hi << 8) | lo`: the bit ranges are disjoint, so the OR is an addition. */
  function BigEndian16(hi: Byte, lo: Byte): (id: Uint16)
    ensures id / 256 == hi as int && id % 256 == lo as int
  {
    hi as int * 256 + lo as int
  }

  /** Every 16-bit id survives being split into two big-endian bytes and joined again. */
  lemma BigEndian16RoundTrip(id: Uint16)
    ensures BigEndian16(HighByte(id), LowByte(id)) == id
  {
    ByteOfSmall(id / 256);
    ByteOfSmall(id % 256);
  }

  /** Converting a value in 0..255 to a byte loses nothing. */
  lemma ByteOfSmall(x: int)
    requires 0 <= x < 256
    ensures (x as Byte) as int == x
  {
    var w: bv16 := x as bv16;
    assert w < 256;
    assert (w as Byte) as int == w as int;
  }

  /** `uint8_t` increment wraps from 255 to 0. */
  lemma IncrementWraps(x: Byte)
    ensures (x + 1) as int == (x as int + 1) % 256
  {
    var w: bv16 := x as bv16 + 1;
    assert w <= 256;
    assert (x + 1) as int == (w % 256) as int;
  }

  /** A decrement of a positive byte does not wrap. */
  lemma DecrementPositive(x: Byte)
    requires x > 0
    ensures (x - 1) as int == x as int - 1
  {
  }

  /** And every pair of bytes survives being joined and split again. */
  lemma BigEndian16Split(hi: Byte, lo: Byte)
    ensures HighByte(BigEndian16(hi, lo)) == hi && LowByte(BigEndian16(hi, lo)) == lo
  {
    var id := BigEndian16(hi, lo);
    assert (id / 256) as Byte == (hi as int) as Byte;
    assert (id % 256) as Byte == (lo as int) as Byte;
  }
}
