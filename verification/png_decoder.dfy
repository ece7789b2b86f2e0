/**
 * The PNG/APNG chunk validator (`PNG.Decode` in ImageLoader/Models/PNG.cs).
 *
 * The specification is a state machine: `ApplyChunk` is one pass of the `switch` over the chunk
 * type, `Run` the `while (!hasIEND)` loop over the stream, `Finish` the checks after the scan and
 * the construction of the frame list. The method `Decode` is the loop itself, written with the
 * source's local flags and lists, and is proved to compute `DecodeSpec`.
 *
 * Inflating the payloads is not part of this model: each result frame comes with the still
 * compressed payload that inflate and then `Unfilter` turn into its pixels.
 */
module PngDecoder {
  import opened Wrappers
  import opened ByteOrder
  import opened PngConstants
  import opened ChunkStream
  import FM = FrameModels

  /** The chunk types the decoder's `switch` distinguishes; every other type is skipped. */
  datatype ChunkKind = IHDR | PLTE | IDAT | AcTL | FcTL | FdAT | IEND | Unknown

  function KindOf(t: string): ChunkKind
  {
    if t == "IHDR" then IHDR
    else if t == "PLTE" then PLTE
    else if t == "IDAT" then IDAT
    else if t == "acTL" then AcTL
    else if t == "fcTL" then FcTL
    else if t == "fdAT" then FdAT
    else if t == "IEND" then IEND
    else Unknown
  }

  /** An fcTL record as stored by the decoder: its delay denominator is never 0
      (0 is replaced by 100 when the record is accepted). */
  type AcceptedFrameControl = f: FrameControl | f.delayDen != 0
    witness FrameControl(0, 0, 0, 0, 0, 0, 1, 0, 0)

  /** The decoder's local state between chunks. */
  datatype ScanState = ScanState(
    chunks: seq<string>,          // the types of the chunks accepted so far
    images: seq<seq<byte>>,       // compressed payloads, one per IDAT run or fdAT run
    frames: seq<AcceptedFrameControl>,  // accepted fcTL records
    hasIHDR: bool, hasPLTE: bool, hasACTL: bool, hasIEND: bool,
    header: ImageHeader,
    animation: AnimationControl,
    isIdatFrame: bool,            // the IDAT payload is also the first animation frame
    sequence: nat,                // the next expected APNG sequence number
    isFCTL: bool)                 // an fcTL is waiting for its data

  const Initial := ScanState([], [], [], false, false, false, false,
                             DefaultHeader, DefaultAnimation, false, 0, false)

  /** The IHDR fields at their offsets in the type-and-payload buffer. */
  function ParseHeader(buffer: seq<byte>): ImageHeader
    requires |buffer| >= 17
  {
    ImageHeader(ReadUint32(buffer, 4).value, ReadUint32(buffer, 8).value,
                buffer[12], buffer[13], buffer[14], buffer[15], buffer[16])
  }

  /** The first IHDR check that fails, if any. */
  function HeaderFault(h: ImageHeader): (r: Option<ChunkFault>)
    ensures r == None <==>
      && h.width != 0 && h.height != 0
      && BitDepthAllowed(h.colorType, h.bitDepth)
      && h.compressionMethod == 0 && h.filterMethod == 0
      && InterlaceDefined(h.interlaceMethod)
  {
    if h.width == 0 || h.height == 0 then Some(BadImageSize)
    else if !BitDepthAllowed(h.colorType, h.bitDepth) then Some(BadColorTypeOrDepth)
    else if h.compressionMethod != 0 then Some(BadCompressionMethod)
    else if h.filterMethod != 0 then Some(BadFilterMethod)
    else if !InterlaceDefined(h.interlaceMethod) then Some(BadInterlaceMethod)
    else None
  }

  /** The fcTL fields at their offsets in the type-and-payload buffer. */
  function ParseFrameControl(buffer: seq<byte>): FrameControl
    requires |buffer| >= 30
  {
    FrameControl(ReadUint32(buffer, 4).value, ReadUint32(buffer, 8).value,
                 ReadUint32(buffer, 12).value, ReadUint32(buffer, 16).value,
                 ReadUint32(buffer, 20).value, ReadUint16(buffer, 24).value,
                 ReadUint16(buffer, 26).value, buffer[28], buffer[29])
  }

  /** The frame rectangle lies inside the canvas (sums taken without wrap-around). */
  predicate FrameInsideCanvas(f: FrameControl, h: ImageHeader)
  {
    f.xOffset + f.width <= h.width && f.yOffset + f.height <= h.height
  }

  /** The last payload extended by `more`. */
  function AppendToLast(images: seq<seq<byte>>, more: seq<byte>): (r: seq<seq<byte>>)
    requires |images| > 0
    ensures |r| == |images| && r[..|r| - 1] == images[..|images| - 1]
    ensures r[|r| - 1] == images[|images| - 1] + more
  {
    images[..|images| - 1] + [images[|images| - 1] + more]
  }

  function AcceptHeader(st: ScanState, t: string, buffer: seq<byte>, offset: nat): Result<ScanState, DecodeError>
  {
    if st.hasIHDR then Failure(ChunkError(t, offset, Duplicate))
    else if |st.chunks| > 0 then Failure(ChunkError(t, offset, Misplaced))
    else if |buffer| < 12 then Failure(ShortRead)
    else if |buffer| < 17 then Failure(IndexOutOfRange)
    else
      var h := ParseHeader(buffer);
      match HeaderFault(h)
      case Some(fault) => Failure(ChunkError(t, offset, fault))
      case None => Success(st.(header := h, hasIHDR := true))
  }

  function AcceptPalette(st: ScanState, t: string, offset: nat): Result<ScanState, DecodeError>
  {
    if st.hasPLTE then Failure(ChunkError(t, offset, Duplicate))
    else Success(st.(hasPLTE := true))
  }

  function AcceptImageData(st: ScanState, t: string, buffer: seq<byte>, offset: nat): Result<ScanState, DecodeError>
    requires |buffer| >= 4
  {
    var idat := buffer[4..];
    if |st.chunks| == 0 then Failure(IndexOutOfRange)
    else
      var next :-
        if st.chunks[|st.chunks| - 1] != t then
          if |st.images| != 0 then Failure(ChunkError(t, offset, NonContinuous))
          else Success(st.(images := st.images + [idat],
                           isIdatFrame := st.isIdatFrame || (st.hasACTL && |st.frames| == 1)))
        else if |st.images| == 0 then Failure(IndexOutOfRange)
        else Success(st.(images := AppendToLast(st.images, idat)));
      Success(if st.hasACTL then next.(isFCTL := false) else next)
  }

  function AcceptAnimationControl(st: ScanState, t: string, buffer: seq<byte>, offset: nat): Result<ScanState, DecodeError>
  {
    if st.hasACTL then Failure(ChunkError(t, offset, Duplicate))
    else if |st.images| != 0 then Failure(ChunkError(t, offset, Misplaced))
    else if |buffer| < 12 then Failure(ShortRead)
    else
      var ac := AnimationControl(ReadUint32(buffer, 4).value, ReadUint32(buffer, 8).value);
      if ac.numFrames == 0 then Failure(ChunkError(t, offset, ZeroFrames))
      else Success(st.(animation := ac, hasACTL := true))
  }

  function AcceptFrameControl(st: ScanState, t: string, buffer: seq<byte>, offset: nat): Result<ScanState, DecodeError>
  {
    if st.isFCTL then Failure(ChunkError(t, offset, ConsecutiveFrameControl))
    else if |buffer| < 28 then Failure(ShortRead)
    else if |buffer| < 30 then Failure(IndexOutOfRange)
    else
      var f := ParseFrameControl(buffer);
      var h := st.header;
      if |st.frames| == 0 && st.sequence != 0 then Failure(ChunkError(t, offset, FirstFrameMisplaced))
      else if f.sequenceNumber != st.sequence then Failure(ChunkError(t, offset, BadSequenceNumber))
      else if |st.frames| == 0 && (f.width != h.width || f.height != h.height || f.xOffset != 0 || f.yOffset != 0) then
        Failure(ChunkError(t, offset, BadFirstFrameSize))
      else if f.width == 0 || f.height == 0 || !FrameInsideCanvas(f, h) then Failure(ChunkError(t, offset, BadFrameSize))
      else if !DisposeDefined(f.disposeOp) then Failure(ChunkError(t, offset, BadDisposeOp))
      else if !BlendDefined(f.blendOp) then Failure(ChunkError(t, offset, BadBlendOp))
      else
        var g: AcceptedFrameControl := if f.delayDen == 0 then f.(delayDen := 100) else f;
        Success(st.(frames := st.frames + [g], sequence := st.sequence + 1, isFCTL := true))
  }

  /** The chunk accepted last is of type `t`. */
  predicate Follows(st: ScanState, t: string)
  {
    |st.chunks| > 0 && st.chunks[|st.chunks| - 1] == t
  }

  /** The fdAT case, with the check for an open fcTL corrected: an fdAT that directly follows
      another fdAT continues the same frame, so it needs no fcTL of its own. (The code asks for
      one, which leaves its own concatenation branch unreachable; see
      `DecoderProperties.AcceptFrameDataAsWritten`.) */
  function AcceptFrameData(st: ScanState, t: string, buffer: seq<byte>, offset: nat): Result<ScanState, DecodeError>
  {
    if !st.isFCTL && !Follows(st, t) then Failure(ChunkError(t, offset, NoFrameControl))
    else if |buffer| < 8 then Failure(ShortRead)
    else if ReadUint32(buffer, 4).value != st.sequence then Failure(ChunkError(t, offset, BadSequenceNumber))
    else
      var fdat := buffer[8..];
      var images :-
        if |st.chunks| == 0 then Failure(IndexOutOfRange)
        else if st.chunks[|st.chunks| - 1] != t then Success(st.images + [fdat])
        else if |st.images| == 0 then Failure(IndexOutOfRange)
        else Success(AppendToLast(st.images, fdat));
      Success(st.(images := images, sequence := st.sequence + 1, isFCTL := false))
  }

  /** One pass of the loop body for a chunk whose CRC matched: the `switch`, then the type is recorded. */
  function ApplyChunk(st: ScanState, buffer: seq<byte>, offset: nat): Result<ScanState, DecodeError>
  {
    var t := TypeOf(buffer);
    var next :-
      match KindOf(t)
      case IHDR => AcceptHeader(st, t, buffer, offset)
      case PLTE => AcceptPalette(st, t, offset)
      case IDAT => AcceptImageData(st, t, buffer, offset)
      case AcTL => AcceptAnimationControl(st, t, buffer, offset)
      case FcTL => AcceptFrameControl(st, t, buffer, offset)
      case FdAT => AcceptFrameData(st, t, buffer, offset)
      case IEND => Success(st.(hasIEND := true))
      case Unknown => Success(st);
    Success(next.(chunks := st.chunks + [t]))
  }

  /** One iteration of the chunk loop at stream position `pos` (file offset
      `SignatureLength + pos`): read a chunk, check its CRC, apply it. On success, the position
      of the next chunk and the new state. */
  function Advance(data: seq<byte>, pos: nat, st: ScanState, crc32: seq<byte> -> uint32)
    : (r: Result<(nat, ScanState), DecodeError>)
    requires pos <= |data|
    ensures r.Success? ==> pos < r.value.0 <= |data|
  {
    var c :- ReadChunk(data, pos);
    if c.storedCrc != crc32(c.buffer) then Failure(ChunkError(TypeOf(c.buffer), SignatureLength + pos, CrcMismatch))
    else
      var next :- ApplyChunk(st, c.buffer, SignatureLength + pos);
      Success((pos + |c.buffer| + 8, next))
  }

  /** The chunk loop from stream position `pos` until IEND. */
  function Run(data: seq<byte>, pos: nat, st: ScanState, crc32: seq<byte> -> uint32): Result<ScanState, DecodeError>
    requires pos <= |data|
    decreases |data| - pos
  {
    if st.hasIEND then Success(st)
    else
      var step :- Advance(data, pos, st, crc32);
      Run(data, step.0, step.1, crc32)
  }

  /** What `Decode` returns: the canvas size, the play count and the frames (their `data` left
      empty), each with the compressed payload its pixels come from. */
  datatype Decoded = Decoded(width: int, height: int, times: int, colorType: byte,
                             frames: seq<FM.FrameModel>, payloads: seq<seq<byte>>)

  function DisposeModeOf(code: byte): FM.DisposeMode
  {
    if code == DisposeOpNone then FM.None
    else if code == DisposeOpBackground then FM.Background
    else FM.Previous
  }

  function BlendModeOf(code: byte): FM.BlendMode
  {
    if code == BlendOpSource then FM.Normal else FM.AlphaBlending
  }

  /** The frame record built for an accepted fcTL. */
  function AnimationFrame(f: AcceptedFrameControl): FM.FrameModel
  {
    FM.FrameModel(ToInt32(f.xOffset), ToInt32(f.yOffset), ToInt32(f.width), ToInt32(f.height),
                  DelayMs(f.delayNum, f.delayDen), DisposeModeOf(f.disposeOp), BlendModeOf(f.blendOp), [])
  }

  /** Whether the first payload is the default image rather than frame 0: it is then skipped. */
  function PayloadSkip(st: ScanState): nat
  {
    if st.isIdatFrame then 0 else 1
  }

  /** The checks after the scan, then the frame list. */
  function Finish(st: ScanState): Result<Decoded, DecodeError>
  {
    var h := st.header;
    if !st.hasIHDR || !st.hasIEND || (!st.hasPLTE && h.colorType == ColorTypeCode(Palette)) then Failure(MissingChunk)
    else if st.hasPLTE && (h.colorType == ColorTypeCode(Grayscale) || h.colorType == ColorTypeCode(GrayscaleAlpha)) then
      Failure(UnneededChunk)
    else if st.hasACTL && (st.animation.numFrames != |st.frames| || st.animation.numFrames != |st.images| - PayloadSkip(st)) then
      Failure(FrameCountMismatch)
    else if |st.images| == 0 then Failure(NoImageData)
    else if st.hasACTL then
      var n := |st.frames|;
      Success(Decoded(ToInt32(h.width), ToInt32(h.height), ToInt32(st.animation.numPlays), h.colorType,
                      seq(n, i requires 0 <= i < n => AnimationFrame(st.frames[i])),
                      st.images[PayloadSkip(st)..]))
    else
      Success(Decoded(ToInt32(h.width), ToInt32(h.height), 0, h.colorType,
                      [FM.FrameModel(0, 0, ToInt32(h.width), ToInt32(h.height), 0, FM.None, FM.Normal, [])],
                      [st.images[0]]))
  }

  /** The whole decoder over the bytes that follow the signature. */
  function DecodeSpec(data: seq<byte>, crc32: seq<byte> -> uint32): Result<Decoded, DecodeError>
  {
    var st :- Run(data, 0, Initial, crc32);
    Finish(st)
  }

  /** The IHDR case of the decoder's `switch`. */
  method HandleHeader(st: ScanState, t: string, buffer: seq<byte>, offset: nat) returns (r: Result<ScanState, DecodeError>)
    ensures r == AcceptHeader(st, t, buffer, offset)
  {
    if st.hasIHDR {
      return Failure(ChunkError(t, offset, Duplicate));
    }
    if |st.chunks| > 0 {
      return Failure(ChunkError(t, offset, Misplaced));
    }
    if |buffer| < 12 {
      return Failure(ShortRead);
    }
    if |buffer| < 17 {
      return Failure(IndexOutOfRange);
    }
    var imageHeader := ParseHeader(buffer);
    var fault := HeaderFault(imageHeader);
    if fault.Some? {
      return Failure(ChunkError(t, offset, fault.value));
    }
    return Success(st.(header := imageHeader, hasIHDR := true));
  }

  /** The IDAT case: the first IDAT starts a payload, later ones extend it. */
  method HandleImageData(st: ScanState, t: string, buffer: seq<byte>, offset: nat) returns (r: Result<ScanState, DecodeError>)
    requires |buffer| >= 4
    ensures r == AcceptImageData(st, t, buffer, offset)
  {
    var images, isIdatFrame, isFCTL := st.images, st.isIdatFrame, st.isFCTL;
    var idat := buffer[4..];
    if |st.chunks| == 0 {
      return Failure(IndexOutOfRange);
    }
    if st.chunks[|st.chunks| - 1] != t {
      if |images| != 0 {
        return Failure(ChunkError(t, offset, NonContinuous));
      }
      images := images + [idat];
      if st.hasACTL && |st.frames| == 1 {
        isIdatFrame := true;
      }
    } else {
      if |images| == 0 {
        return Failure(IndexOutOfRange);
      }
      images := images[..|images| - 1] + [images[|images| - 1] + idat];
    }
    if st.hasACTL {
      isFCTL := false;
    }
    return Success(st.(images := images, isIdatFrame := isIdatFrame, isFCTL := isFCTL));
  }

  /** The acTL case. */
  method HandleAnimationControl(st: ScanState, t: string, buffer: seq<byte>, offset: nat)
    returns (r: Result<ScanState, DecodeError>)
    ensures r == AcceptAnimationControl(st, t, buffer, offset)
  {
    if st.hasACTL {
      return Failure(ChunkError(t, offset, Duplicate));
    }
    if |st.images| != 0 {
      return Failure(ChunkError(t, offset, Misplaced));
    }
    if |buffer| < 12 {
      return Failure(ShortRead);
    }
    var animationControl := AnimationControl(ReadUint32(buffer, 4).value, ReadUint32(buffer, 8).value);
    if animationControl.numFrames == 0 {
      return Failure(ChunkError(t, offset, ZeroFrames));
    }
    return Success(st.(animation := animationControl, hasACTL := true));
  }

  /** The fcTL case: the record is checked against the sequence and the canvas, then stored. */
  method HandleFrameControl(st: ScanState, t: string, buffer: seq<byte>, offset: nat)
    returns (r: Result<ScanState, DecodeError>)
    ensures r == AcceptFrameControl(st, t, buffer, offset)
  {
    if st.isFCTL {
      return Failure(ChunkError(t, offset, ConsecutiveFrameControl));
    }
    if |buffer| < 28 {
      return Failure(ShortRead);
    }
    if |buffer| < 30 {
      return Failure(IndexOutOfRange);
    }
    var fctl := ParseFrameControl(buffer);
    var imageHeader := st.header;
    if |st.frames| == 0 && st.sequence != 0 {
      return Failure(ChunkError(t, offset, FirstFrameMisplaced));
    }
    if fctl.sequenceNumber != st.sequence {
      return Failure(ChunkError(t, offset, BadSequenceNumber));
    }
    if |st.frames| == 0 && (fctl.width != imageHeader.width || fctl.height != imageHeader.height
                            || fctl.xOffset != 0 || fctl.yOffset != 0) {
      return Failure(ChunkError(t, offset, BadFirstFrameSize));
    }
    if fctl.width == 0 || fctl.height == 0 || !FrameInsideCanvas(fctl, imageHeader) {
      return Failure(ChunkError(t, offset, BadFrameSize));
    }
    if !DisposeDefined(fctl.disposeOp) {
      return Failure(ChunkError(t, offset, BadDisposeOp));
    }
    if !BlendDefined(fctl.blendOp) {
      return Failure(ChunkError(t, offset, BadBlendOp));
    }
    if fctl.delayDen == 0 {
      fctl := fctl.(delayDen := 100);
    }
    return Success(st.(frames := st.frames + [fctl], sequence := st.sequence + 1, isFCTL := true));
  }

  /** The fdAT case: the frame's data starts a payload, or extends it after another fdAT. */
  method HandleFrameData(st: ScanState, t: string, buffer: seq<byte>, offset: nat)
    returns (r: Result<ScanState, DecodeError>)
    ensures r == AcceptFrameData(st, t, buffer, offset)
  {
    if !st.isFCTL && !(|st.chunks| > 0 && st.chunks[|st.chunks| - 1] == t) {
      return Failure(ChunkError(t, offset, NoFrameControl));
    }
    if |buffer| < 8 {
      return Failure(ShortRead);
    }
    var seqNumber := ReadUint32(buffer, 4).value;
    if seqNumber != st.sequence {
      return Failure(ChunkError(t, offset, BadSequenceNumber));
    }
    var images := st.images;
    var fdat := buffer[8..];
    if |st.chunks| == 0 {
      return Failure(IndexOutOfRange);
    }
    if st.chunks[|st.chunks| - 1] != t {
      images := images + [fdat];
    } else {
      if |images| == 0 {
        return Failure(IndexOutOfRange);
      }
      images := images[..|images| - 1] + [images[|images| - 1] + fdat];
    }
    return Success(st.(images := images, sequence := st.sequence + 1, isFCTL := false));
  }

  /** One pass of the `switch` of the decoder's loop over a chunk whose CRC matched; the chunk's
      type is then recorded. */
  method ProcessChunk(st: ScanState, buffer: seq<byte>, offset: nat) returns (r: Result<ScanState, DecodeError>)
    ensures r == ApplyChunk(st, buffer, offset)
  {
    var t := TypeOf(buffer);
    var next: Result<ScanState, DecodeError>;
    match KindOf(t) {
      case IHDR =>
        next := HandleHeader(st, t, buffer, offset);
      case PLTE =>
        next := if st.hasPLTE then Failure(ChunkError(t, offset, Duplicate)) else Success(st.(hasPLTE := true));
      case IDAT =>
        next := HandleImageData(st, t, buffer, offset);
      case AcTL =>
        next := HandleAnimationControl(st, t, buffer, offset);
      case FcTL =>
        next := HandleFrameControl(st, t, buffer, offset);
      case FdAT =>
        next := HandleFrameData(st, t, buffer, offset);
      case IEND =>
        next := Success(st.(hasIEND := true));
      case Unknown =>
        next := Success(st);
    }
    if next.Failure? {
      return Failure(next.error);
    }
    return Success(next.value.(chunks := st.chunks + [t]));
  }

  /** One iteration of the decoder's loop: read a chunk, check its CRC, run the `switch`. */
  method ScanChunk(data: seq<byte>, pos: nat, st: ScanState, crc32: seq<byte> -> uint32)
    returns (r: Result<(nat, ScanState), DecodeError>)
    requires pos <= |data|
    ensures r == Advance(data, pos, st, crc32)
  {
    var offset := SignatureLength + pos;
    var read := ReadNextChunk(data, pos);
    if read.Failure? {
      return Failure(read.error);
    }
    var buffer, crc := read.value.buffer, read.value.storedCrc;
    if crc != crc32(buffer) {
      return Failure(ChunkError(TypeOf(buffer), offset, CrcMismatch));
    }
    var next := ProcessChunk(st, buffer, offset);
    if next.Failure? {
      return Failure(next.error);
    }
    return Success((pos + |buffer| + 8, next.value));
  }

  /** The `while (!hasIEND)` loop of `PNG.Decode`. It computes exactly `Run` from the initial state. */
  method Scan(data: seq<byte>, crc32: seq<byte> -> uint32) returns (r: Result<ScanState, DecodeError>)
    ensures r == Run(data, 0, Initial, crc32)
  {
    var st := Initial;
    var pos := 0;
    while !st.hasIEND
      invariant 0 <= pos <= |data|
      invariant Run(data, pos, st, crc32) == Run(data, 0, Initial, crc32)
      decreases |data| - pos
    {
      var step := ScanChunk(data, pos, st, crc32);
      if step.Failure? {
        return Failure(step.error);
      }
      pos, st := step.value.0, step.value.1;
    }
    return Success(st);
  }

  /** `PNG.Decode`: the chunk loop, then the checks after it and the frame list. It computes
      exactly `DecodeSpec`. */
  method Decode(data: seq<byte>, crc32: seq<byte> -> uint32) returns (r: Result<Decoded, DecodeError>)
    ensures r == DecodeSpec(data, crc32)
  {
    var scanned := Scan(data, crc32);
    if scanned.Failure? {
      return Failure(scanned.error);
    }
    r := BuildResult(scanned.value);
  }

  /** The part of `PNG.Decode` after the loop: the required-chunk and frame-count checks, then
      the frame list built by a loop over the fcTL records. It computes exactly `Finish`. */
  method BuildResult(st: ScanState) returns (r: Result<Decoded, DecodeError>)
    ensures r == Finish(st)
  {
    var ScanState(chunks, images, frames, hasIHDR, hasPLTE, hasACTL, hasIEND,
                  imageHeader, animationControl, isIdatFrame, sequence, isFCTL) := st;
    if !hasIHDR || !hasIEND || (!hasPLTE && imageHeader.colorType == ColorTypeCode(Palette)) {
      return Failure(MissingChunk);
    }
    if hasPLTE && (imageHeader.colorType == ColorTypeCode(Grayscale) || imageHeader.colorType == ColorTypeCode(GrayscaleAlpha)) {
      return Failure(UnneededChunk);
    }
    var skip := if isIdatFrame then 0 else 1;
    if hasACTL && (animationControl.numFrames != |frames| || animationControl.numFrames != |images| - skip) {
      return Failure(FrameCountMismatch);
    }
    if |images| == 0 {
      return Failure(NoImageData);
    }

    var width, height := ToInt32(imageHeader.width), ToInt32(imageHeader.height);
    if hasACTL {
      var imageList: seq<FM.FrameModel> := [];
      var payloads: seq<seq<byte>> := [];
      for i := 0 to |frames|
        invariant imageList == seq(i, k requires 0 <= k < i => AnimationFrame(frames[k]))
        invariant payloads == images[skip..skip + i]
      {
        imageList := imageList + [AnimationFrame(frames[i])];
        payloads := payloads + [images[i + skip]];
      }
      assert payloads == images[skip..];
      r := Success(Decoded(width, height, ToInt32(animationControl.numPlays), imageHeader.colorType, imageList, payloads));
    } else {
      var frame := FM.FrameModel(0, 0, width, height, 0, FM.None, FM.Normal, []);
      r := Success(Decoded(width, height, 0, imageHeader.colorType, [frame], [images[0]]));
    }
  }
}
