/** Fixed-width integers of the C sources and their little-endian byte order. */
module Bytes {

  datatype Option<+T> = None | Some(value: T)

  type byte = x: int | 0 <= x < 0x100
  type u12 = x: int | 0 <= x < 0x1000
  type u16 = x: int | 0 <= x < 0x1_0000
  type u32 = x: int | 0 <= x < 0x1_0000_0000
  type i16 = x: int | -0x8000 <= x < 0x8000

  /** Unsigned wrap-around of 32-bit arithmetic. */
  function WrapU32(x: nat): u32 { x % 0x1_0000_0000 }

  /** Conversion to uint8_t. */
  function ToByte(x: nat): (r: byte)
    ensures x < 0x100 ==> r == x
  {
    x % 0x100
  }

  /** Conversion int16_t -> uint16_t, and back. */
  function ToU16(x: i16): u16 { if x < 0 then x + 0x1_0000 else x }
  function ToI16(x: u16): i16 { if x < 0x8000 then x else x - 0x1_0000 }

  /** n copies of one byte. */
  function Fill(n: nat, value: byte): (r: seq<byte>)
    ensures |r| == n && forall i :: 0 <= i < n ==> r[i] == value
  {
    seq(n, _ => value)
  }

  /** The four bytes of a 32-bit word, least significant first. */
  function Le32(v: u32): (r: seq<byte>)
    ensures |r| == 4
  {
    [v % 0x100, v / 0x100 % 0x100, v / 0x1_0000 % 0x100, v / 0x100_0000 % 0x100]
  }

  function FromLe32(b: seq<byte>): u32
    requires |b| == 4
  {
    var b0: int, b1: int, b2: int, b3: int := b[0], b[1], b[2], b[3];
    b0 + b1 * 0x100 + b2 * 0x1_0000 + b3 * 0x100_0000
  }

  function Le16(v: u16): (r: seq<byte>)
    ensures |r| == 2
  {
    [v % 0x100, v / 0x100 % 0x100]
  }

  function FromLe16(b: seq<byte>): u16
    requires |b| == 2
  {
    var b0: int, b1: int := b[0], b[1];
    b0 + b1 * 0x100
  }

  /** The least significant byte comes first. */
  lemma LittleEndian(v: u32)
    ensures var b := Le32(v);
            b[0] as int + 0x100 * (b[1] as int) + 0x1_0000 * (b[2] as int) + 0x100_0000 * (b[3] as int) == v
  {
    var x, y, z: int := v / 0x100, v / 0x1_0000, v / 0x100_0000;
    assert v == 0x100 * x + v % 0x100;
    assert x == 0x100 * y + x % 0x100;
    assert y == 0x100 * z + y % 0x100;
    assert z % 0x100 == z;
  }

  /** Encoding then decoding any word, and decoding then encoding any bytes, change nothing. */
  lemma Le32RoundTrip(v: u32, b: seq<byte>)
    ensures FromLe32(Le32(v)) == v
    ensures |b| == 4 ==> Le32(FromLe32(b)) == b
  {
    assert v / 0x1_0000 == v / 0x100 / 0x100;
    assert v / 0x100_0000 == v / 0x1_0000 / 0x100;
    assert v / 0x100_0000 < 0x100;
    if |b| == 4 {
      var b0: int, b1: int, b2: int, b3: int := b[0], b[1], b[2], b[3];
      var w: int := FromLe32(b);
      assert w / 0x100 == b1 + b2 * 0x100 + b3 * 0x1_0000;
      assert w / 0x1_0000 == b2 + b3 * 0x100;
      assert w / 0x100_0000 == b3;
    }
  }

  /** The result of writing data over image[offset..]. */
  function Patch(image: seq<byte>, offset: nat, data: seq<byte>): (r: seq<byte>)
    requires offset + |data| <= |image|
    ensures |r| == |image|
  {
    image[..offset] + data + image[offset + |data|..]
  }

  lemma PatchAt(image: seq<byte>, offset: nat, data: seq<byte>, i: int)
    requires offset + |data| <= |image| && 0 <= i < |image|
    ensures Patch(image, offset, data)[i] == if offset <= i < offset + |data| then data[i - offset] else image[i]
  {
  }
}
