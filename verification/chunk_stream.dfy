/**
 * Reading one chunk record from the PNG byte stream: a 4-byte big-endian length, the 4-byte
 * type and the payload (read together as one buffer, as the decoder does), then a 4-byte CRC.
 * The stream is a sequence of bytes starting right after the 8-byte PNG signature.
 */
module ChunkStream {
  import opened Wrappers
  import opened ByteOrder

  /** Length of the PNG signature that precedes the first chunk. */
  const SignatureLength: nat := 8

  /** Why a CreateEx error is raised for a chunk. */
  datatype ChunkFault =
    | CrcMismatch
    | Duplicate
    | Misplaced
    | BadImageSize
    | BadColorTypeOrDepth
    | BadCompressionMethod
    | BadFilterMethod
    | BadInterlaceMethod
    | ZeroFrames
    | ConsecutiveFrameControl
    | FirstFrameMisplaced
    | BadSequenceNumber
    | BadFirstFrameSize
    | BadFrameSize
    | BadDisposeOp
    | BadBlendOp
    | NoFrameControl
    | NonContinuous

  /** Every way decoding a file can fail. */
  datatype DecodeError =
    | ShortRead          // fewer bytes than a field or a declared length needs
    | NegativeSize       // the declared length plus 4, as a signed 32-bit size, is negative
    | IndexOutOfRange    // the switch indexes past a short payload or an empty list
    | ChunkError(chunkType: string, offset: nat, fault: ChunkFault)
    | MissingChunk       // IHDR, IEND or a required PLTE never seen
    | UnneededChunk      // PLTE with a grayscale colour type
    | FrameCountMismatch // acTL's frame count disagrees with the frames found
    | NoImageData        // no IDAT or fdAT payload at all

  /** `Encoding.ASCII` decoding of one byte: non-ASCII bytes become '?'. */
  function AsciiChar(b: byte): (c: char)
    ensures b < 0x80 ==> c as int == b
    ensures b >= 0x80 ==> c == '?'
  {
    if b < 0x80 then b as char else '?'
  }

  /** The chunk type: the first (up to) four bytes of the buffer, decoded as ASCII. */
  function TypeOf(buffer: seq<byte>): (t: string)
    ensures |t| == if |buffer| < 4 then |buffer| else 4
    ensures forall i :: 0 <= i < |t| ==> t[i] == AsciiChar(buffer[i])
  {
    if |buffer| >= 4 then [AsciiChar(buffer[0]), AsciiChar(buffer[1]), AsciiChar(buffer[2]), AsciiChar(buffer[3])]
    else seq(|buffer|, i requires 0 <= i < |buffer| => AsciiChar(buffer[i]))
  }

  /** A chunk as read: the type-and-payload buffer and the CRC stored after it. */
  datatype RawChunk = RawChunk(buffer: seq<byte>, storedCrc: uint32)

  /** The number of bytes the decoder asks for after the length field: `(int)(length + 4)`,
      where the `uint` sum wraps and the conversion to `int` can give a negative size. */
  function BufferSize(length: uint32): (n: int)
    ensures length <= 0x7FFF_FFFB ==> n == length + 4
    ensures 0x7FFF_FFFC <= length <= 0xFFFF_FFFB ==> n < 0
    ensures 0xFFFF_FFFC <= length ==> n == length + 4 - 0x1_0000_0000
  {
    var wrapped: uint32 := if length + 4 < 0x1_0000_0000 then length + 4 else length + 4 - 0x1_0000_0000;
    ToInt32(wrapped)
  }

  /** Reads the chunk starting at `pos`; fails when the stream ends early or the size is negative. */
  function ReadChunk(data: seq<byte>, pos: nat): (r: Result<RawChunk, DecodeError>)
    requires pos <= |data|
    ensures r.Success? ==> pos + |r.value.buffer| + 8 <= |data|
    ensures r.Success? ==> r.value.buffer == data[pos + 4..pos + 4 + |r.value.buffer|]
  {
    if |data| - pos < 4 then Failure(ShortRead)
    else
      var length := ReadUint32(data, pos).value;
      var n := BufferSize(length);
      if n < 0 then Failure(NegativeSize)
      else if |data| - (pos + 4) < n then Failure(ShortRead)
      else if |data| - (pos + 4 + n) < 4 then Failure(ShortRead)
      else Success(RawChunk(data[pos + 4..pos + 4 + n], ReadUint32(data, pos + 4 + n).value))
  }

  /** The reads at the top of the decoder's loop: the length, the type and payload, the CRC. */
  method ReadNextChunk(data: seq<byte>, pos: nat) returns (r: Result<RawChunk, DecodeError>)
    requires pos <= |data|
    ensures r == ReadChunk(data, pos)
  {
    if |data| - pos < 4 {
      return Failure(ShortRead);
    }
    var length := ReadUint32(data, pos).value;
    var size := BufferSize(length);
    if size < 0 {
      return Failure(NegativeSize);
    }
    if |data| - (pos + 4) < size {
      return Failure(ShortRead);
    }
    var buffer := data[pos + 4..pos + 4 + size];
    if |data| - (pos + 4 + size) < 4 {
      return Failure(ShortRead);
    }
    var crc := ReadUint32(data, pos + 4 + size).value;
    return Success(RawChunk(buffer, crc));
  }

  /** Writes one chunk: the inverse of ReadChunk for payloads the decoder can size. */
  function EncodeChunk(tag: seq<byte>, payload: seq<byte>, crc32: seq<byte> -> uint32): (s: seq<byte>)
    requires |tag| == 4 && |payload| <= 0x7FFF_FFFB
    ensures |s| == |payload| + 12
  {
    Uint32Bytes(|payload|) + tag + payload + Uint32Bytes(crc32(tag + payload))
  }

  /** ReadChunk in terms of the two length fields it finds. */
  lemma ReadChunkFields(data: seq<byte>, pos: nat, length: nat, stored: uint32)
    requires length <= 0x7FFF_FFFB && pos + length + 12 <= |data|
    requires ReadUint32(data, pos) == Some(length)
    requires ReadUint32(data, pos + 8 + length) == Some(stored)
    ensures ReadChunk(data, pos) == Success(RawChunk(data[pos + 4..pos + 8 + length], stored))
  {
  }

  /** When `ReadChunk` fails and how long the buffer it reads is: with the length field in
      place, the read succeeds exactly when the size `(int)(length + 4)` is not negative and the
      buffer and the CRC fit in the data; a negative size is NegativeSize, and a stream that ends
      early is ShortRead. */
  lemma ReadChunkOutcome(data: seq<byte>, pos: nat)
    requires pos <= |data|
    ensures pos + 4 > |data| ==> ReadChunk(data, pos) == Failure(ShortRead)
    ensures pos + 4 <= |data| ==>
      var n := BufferSize(ReadUint32(data, pos).value);
      && (ReadChunk(data, pos).Success? <==> 0 <= n && pos + n + 8 <= |data|)
      && (n < 0 ==> ReadChunk(data, pos) == Failure(NegativeSize))
      && (0 <= n && pos + n + 8 > |data| ==> ReadChunk(data, pos) == Failure(ShortRead))
      && (ReadChunk(data, pos).Success? ==>
            && |ReadChunk(data, pos).value.buffer| == n
            && ReadChunk(data, pos).value.storedCrc == ReadUint32(data, pos + 4 + n).value)
  {
  }

  /** The ways of grouping the pieces of an encoded chunk that its read goes through. */
  lemma EncodedLayout(prefix: seq<byte>, len: seq<byte>, tag: seq<byte>, payload: seq<byte>,
                      crc: seq<byte>, suffix: seq<byte>)
    requires |len| == 4
    ensures var data := prefix + len + tag + payload + crc + suffix;
      && data == prefix + len + (tag + payload + crc + suffix)
      && data == (prefix + len + (tag + payload)) + crc + suffix
      && data[|prefix| + 4..|prefix| + 4 + |tag + payload|] == tag + payload
  {
    var data := prefix + len + tag + payload + crc + suffix;
    assert data == (prefix + len + (tag + payload)) + crc + suffix;
    assert data == prefix + len + (tag + payload + crc + suffix);
  }

  /** A written chunk is read back as its type-and-payload buffer with its CRC, and the reader
      then stands `|payload| + 12` bytes further on. */
  lemma {:induction false} ReadEncodedChunk(prefix: seq<byte>, tag: seq<byte>, payload: seq<byte>,
                                            stored: uint32, suffix: seq<byte>)
    requires |tag| == 4 && |payload| <= 0x7FFF_FFFB
    ensures var data := prefix + Uint32Bytes(|payload|) + tag + payload + Uint32Bytes(stored) + suffix;
            ReadChunk(data, |prefix|) == Success(RawChunk(tag + payload, stored))
  {
    var len := Uint32Bytes(|payload|);
    var body := tag + payload;
    var crc := Uint32Bytes(stored);
    var data := prefix + len + tag + payload + crc + suffix;
    var p := |prefix|;
    EncodedLayout(prefix, len, tag, payload, crc, suffix);
    ReadUint32OfBytes(prefix, |payload|, body + crc + suffix);
    ReadUint32OfBytes(prefix + len + body, stored, suffix);
    ReadChunkFields(data, p, |payload|, stored);
  }
}
