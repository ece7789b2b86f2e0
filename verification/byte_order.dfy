/**
 * Fixed-width integers and the big-endian field readers of the PNG decoder
 * (`ReadUINT(byte[], int)` and `ReadWORD(byte[], int)` in ImageLoader/Models/PNG.cs).
 * Both readers throw when fewer bytes remain than the field needs; that case is `None` here.
 */
module ByteOrder {
  import opened Wrappers
  import Arith

  type byte = x: int | 0 <= x < 0x100
  type uint16 = x: int | 0 <= x < 0x1_0000
  type uint32 = x: int | 0 <= x < 0x1_0000_0000

  /** The value of four bytes read most significant first. */
  function BigEndian32(b0: byte, b1: byte, b2: byte, b3: byte): uint32
  {
    ((b0 * 0x100 + b1) * 0x100 + b2) * 0x100 + b3
  }

  /** `ReadUINT(buffer, offset)`: a big-endian 32-bit value, or `None` when fewer than 4 bytes remain. */
  function ReadUint32(buffer: seq<byte>, offset: nat): (r: Option<uint32>)
    ensures r.Some? <==> offset + 4 <= |buffer|
  {
    if |buffer| - offset < 4 then None
    else Some(BigEndian32(buffer[offset], buffer[offset + 1], buffer[offset + 2], buffer[offset + 3]))
  }

  /** `ReadWORD(buffer, offset)`: a big-endian 16-bit value, or `None` when fewer than 2 bytes remain. */
  function ReadUint16(buffer: seq<byte>, offset: nat): (r: Option<uint16>)
    ensures r.Some? <==> offset + 2 <= |buffer|
  {
    if |buffer| - offset < 2 then None
    else Some((buffer[offset] as int) * 0x100 + buffer[offset + 1])
  }

  /** The big-endian encoding of a 32-bit value: the writer that ReadUint32 inverts. */
  function Uint32Bytes(v: uint32): (s: seq<byte>)
    ensures |s| == 4
  {
    [v / 0x100_0000, (v / 0x1_0000) % 0x100, (v / 0x100) % 0x100, v % 0x100]
  }

  /** The big-endian encoding of a 16-bit value. */
  function Uint16Bytes(v: uint16): (s: seq<byte>)
    ensures |s| == 2
  {
    [v / 0x100, v % 0x100]
  }

  lemma BytesOfBigEndian32(b0: byte, b1: byte, b2: byte, b3: byte)
    ensures Uint32Bytes(BigEndian32(b0, b1, b2, b3)) == [b0, b1, b2, b3]
  {
    var v := BigEndian32(b0, b1, b2, b3);
    var mid := (b0 as int) * 0x100 + b1;
    var hi := mid * 0x100 + b2;
    Arith.DivMod(hi, b3, 0x100);
    Arith.DivMod(mid, b2, 0x100);
    Arith.DivMod(b0, b1, 0x100);
    Arith.DivMod(mid, b2 * 0x100 + b3, 0x1_0000);
    Arith.DivMod(b0, b1 * 0x1_0000 + b2 * 0x100 + b3, 0x100_0000);
  }

  /** A value read is the one whose encoding occupies the four bytes read. */
  lemma ReadUint32Encodes(buffer: seq<byte>, offset: nat)
    requires offset + 4 <= |buffer|
    ensures Uint32Bytes(ReadUint32(buffer, offset).value) == buffer[offset..offset + 4]
  {
    BytesOfBigEndian32(buffer[offset], buffer[offset + 1], buffer[offset + 2], buffer[offset + 3]);
  }

  /** A 16-bit value read is the one whose encoding occupies the two bytes read. */
  lemma ReadUint16Encodes(buffer: seq<byte>, offset: nat)
    requires offset + 2 <= |buffer|
    ensures Uint16Bytes(ReadUint16(buffer, offset).value) == buffer[offset..offset + 2]
  {
    var v := ReadUint16(buffer, offset).value;
    Arith.DivMod(buffer[offset], buffer[offset + 1], 0x100);
  }

  /** Combining the four bytes of an encoding gives the value back. */
  lemma BigEndianOfBytes(v: uint32)
    ensures var b := Uint32Bytes(v); BigEndian32(b[0], b[1], b[2], b[3]) == v
  {
    var q1, q2, q3 := v / 0x100, v / 0x1_0000, v / 0x100_0000;
    assert q2 == q1 / 0x100;
    assert q3 == q2 / 0x100;
  }

  /** Reading back a written 32-bit value gives that value, wherever it sits in the buffer. */
  lemma {:induction false} ReadUint32OfBytes(prefix: seq<byte>, v: uint32, suffix: seq<byte>)
    ensures ReadUint32(prefix + Uint32Bytes(v) + suffix, |prefix|) == Some(v)
  {
    var buf := prefix + Uint32Bytes(v) + suffix;
    var b := Uint32Bytes(v);
    assert buf[|prefix|..|prefix| + 4] == b;
    BigEndianOfBytes(v);
  }

  /** Reading back a written 16-bit value gives that value. */
  lemma ReadUint16OfBytes(prefix: seq<byte>, v: uint16, suffix: seq<byte>)
    ensures ReadUint16(prefix + Uint16Bytes(v) + suffix, |prefix|) == Some(v)
  {
    var buf := prefix + Uint16Bytes(v) + suffix;
    assert buf[|prefix|] == v / 0x100 && buf[|prefix| + 1] == v % 0x100;
  }

  /** C#'s unchecked `(int)` conversion of a `uint`: values of 2^31 and above become negative. */
  function ToInt32(v: uint32): (r: int)
    ensures -0x8000_0000 <= r < 0x8000_0000
    ensures r >= 0 <==> v < 0x8000_0000
    ensures r == v || r == v - 0x1_0000_0000
  {
    if v < 0x8000_0000 then v else v - 0x1_0000_0000
  }
}
