# ImageLoader PNG/APNG core in Dafny

This project models the core of ImageLoader, a small C# viewer for PNG and animated PNG (APNG)
files, and proves properties of the model. It covers three pieces of the program.

- **The chunk decoder** (`PNG.Decode` in `ImageLoader/Models/PNG.cs`). It reads the chunk stream
  that follows the 8-byte signature. Each chunk is a big-endian length, a 4-byte ASCII type, the
  payload and a CRC-32. The decoder checks the CRC and dispatches on the type:
  - IHDR: the image header;
  - PLTE: the palette;
  - IDAT: the default image's compressed data;
  - acTL: the animation control, with the frame count and the play count;
  - fcTL: a frame's rectangle, delay, dispose op and blend op;
  - fdAT: a frame's compressed data;
  - IEND: the end of the stream.

  Once IEND is seen, the decoder checks for missing and unneeded chunks and for matching frame
  counts, then builds the frame list.
- **Scanline reconstruction** (`Unfilter` and its `Paeth` predictor). It undoes the PNG filters
  None, Sub, Up, Average and Paeth on inflated 8-bit RGB or RGBA data. The result is a BGRA canvas
  whose alpha is 255 for RGB images.
- **The playback loop** (`Animation.Play` in `ImageLoader/Exts/Animation.cs`). It keeps two
  canvases, the output buffer and the saved previous output. For each frame it prepares the
  buffers as the frame's dispose mode says, then draws the frame's rectangle by copying it or by
  alpha-blending it. Then it moves to the next frame, counting a completed round when the index
  wraps. It stops once the requested number of rounds has been played.

## Layout

| file | module |
|---|---|
| `wrappers.dfy` | `Wrappers`: `Option`, `Result` |
| `arith.dfy` | `Arith`: small arithmetic facts |
| `byte_order.dfy` | `ByteOrder`: bytes, big-endian reads, the `(int)` cast of a `uint` |
| `png_constants.dfy` | `PngConstants`: the chunk records and enumerations of `ImageLoader/Models/Constants/PNG.cs` |
| `frame_model.dfy` | `FrameModels`: the `FrameModel` record |
| `chunk_stream.dfy` | `ChunkStream`: reading one chunk, and the decoder's errors |
| `png_decoder.dfy` | `PngDecoder`: the decoder's scan state, one function per chunk kind, and the methods that mirror the C# loop |
| `decoder_properties.dfy` | `DecoderProperties`: the loop invariant, what each chunk kind accepts, soundness of the result, the round trip from encoded chunk streams, and the findings below |
| `grid.dfy` | `Grid`: row-major index arithmetic |
| `scanline.dfy` | `Scanline`: `Unfilter` and `Paeth`, and the proof that reconstruction inverts the standard filters |
| `animation.dfy` | `Animation`: the player class over two `array<byte>` canvases, and the spec functions `Drawn`, `Pass` and `Canvases` |

Each method is proved equal to a function. For example:
- `Decode` returns `DecodeSpec`;
- `Unfilter` establishes `Reconstructed`;
- `Player.Draw` leaves `Drawn(old buffer)`;
- `Play` leaves `Canvases(passes)`.

The properties are lemmas about those functions.

The model follows the code in three places where a prose description of the program could be
read differently:
- The Paeth predictor is the code's. It measures `|b − c|` for `a`, `|a − c|` for `b` and
  `|a + b − 2c|` for `c`, which is the PNG standard's predictor. So `Paeth(10, 20, 15)` is `15`.
- The dispose step uses the dispose mode of the frame about to be drawn, not the mode of the
  frame before it.
- An unknown filter byte is not an error in the code; the model excludes it (see "Left out").

## Model

| member | source | states |
|---|---|---|
| `PngConstants.ColorTypeOf` | ImageLoader/Models/Constants/PNG.cs:108-130 | A color-type byte names a color type exactly when it is 0, 2, 3, 4 or 6, and the named type's code is that byte |
| `PngConstants.BitDepthTable` | ImageLoader/Models/Constants/PNG.cs:211-218 | The allowed-depth table accepts exactly {1,2,4,8,16} for grayscale, {8,16} for RGB, grayscale+alpha and RGBA, and {1,2,4,8} for palette |
| `PngConstants.NoDepthCodes` | ImageLoader/Models/Constants/PNG.cs:211-218 | The color codes with no allowed depth at all are exactly 1, 5 and 7 and above |
| `PngConstants.CommonDepths` | ImageLoader/Models/Constants/PNG.cs:211-218 | Depth 8 is allowed for every color type; depth 16 is allowed for every type except palette |
| `PngConstants.DefinedCodes` | ImageLoader/Models/Constants/PNG.cs:135-206 | The interlace, dispose-op, blend-op and filter-type enumerations define exactly the codes {0,1}, {0,1,2}, {0,1} and 0..4 |
| `PngConstants.DelayMs` | ImageLoader/Models/PNG.cs:299 | A frame delay in milliseconds is the floor of `num * 1000 / den`, and it is at most 65 535 000, so it fits an `int` |
| `ByteOrder.ReadUint32` | ImageLoader/Models/PNG.cs:351-359 | A 32-bit read succeeds exactly when four bytes remain after the offset (otherwise it is the IOException case) |
| `ByteOrder.ReadUint32Encodes` | ImageLoader/Models/PNG.cs:351-359 | The value read is the big-endian value of those four bytes: writing it back yields the same bytes |
| `ByteOrder.ReadUint32OfBytes` | ImageLoader/Models/PNG.cs:351-359 | Reading at the position where a value's four big-endian bytes were placed returns that value, whatever surrounds them |
| `ByteOrder.BytesOfBigEndian32` | ImageLoader/Models/PNG.cs:358 | Assembling four bytes big-endian and splitting the result gives back the same four bytes |
| `ByteOrder.BigEndianOfBytes` | ImageLoader/Models/PNG.cs:358 | Splitting a 32-bit value into bytes and assembling them big-endian gives back the value |
| `ByteOrder.ReadUint16` | ImageLoader/Models/PNG.cs:367-375 | A 16-bit read succeeds exactly when two bytes remain after the offset |
| `ByteOrder.ReadUint16Encodes` | ImageLoader/Models/PNG.cs:367-375 | The value read is the big-endian value of those two bytes |
| `ByteOrder.ReadUint16OfBytes` | ImageLoader/Models/PNG.cs:367-375 | Reading where a 16-bit value was written big-endian returns that value |
| `ByteOrder.ToInt32` | ImageLoader/Models/PNG.cs:295-298 | The `(int)` cast of a `uint` keeps values below 2^31 and maps the rest to negative values 2^32 lower |
| `ChunkStream.AsciiChar` | ImageLoader/Models/PNG.cs:56 | ASCII decoding keeps bytes below 0x80 and turns every other byte into `?` |
| `ChunkStream.TypeOf` | ImageLoader/Models/PNG.cs:56 | The chunk type is the ASCII decoding of the first four bytes (fewer if the buffer is shorter), character by character |
| `ChunkStream.BufferSize` | ImageLoader/Models/PNG.cs:55 | The number of bytes read for type and payload is `(int)(length + 4)`: the length plus 4 up to 0x7FFFFFFB, negative from 0x7FFFFFFC to 0xFFFFFFFB, and wrapped to `length + 4 - 2^32` (0 to 3) above that |
| `ChunkStream.ReadChunk` | ImageLoader/Models/PNG.cs:54-57 | A chunk that is read lies inside the data, and its buffer is the bytes after the length field |
| `ChunkStream.ReadChunkOutcome` | ImageLoader/Models/PNG.cs:54-57 | Fewer than four bytes for the length is ShortRead. Otherwise, with `n` the size `BufferSize` gives, the read succeeds exactly when `n` is not negative and `n + 8` bytes fit after the position; a negative `n` is NegativeSize and a stream too short for the buffer or the CRC is ShortRead. A read buffer has `n` bytes and the CRC is the four bytes after it |
| `ChunkStream.ReadNextChunk` | ImageLoader/Models/PNG.cs:54-57 | The stream reads of length, type, payload and CRC give the chunk that `ReadChunk` describes |
| `ChunkStream.ReadChunkFields` | ImageLoader/Models/PNG.cs:54-57 | With a length field of `n` and enough data, the chunk is the next `n + 4` bytes, and the CRC is the four bytes after them |
| `ChunkStream.ReadEncodedChunk` | ImageLoader/Models/PNG.cs:54-57 | Reading back an encoded chunk (length, type, payload, CRC), which takes 12 bytes more than its payload, yields its type and payload and the stored CRC |
| `PngDecoder.HeaderFault` | ImageLoader/Models/PNG.cs:89-110 | A header is accepted exactly when the width and height are non-zero, the bit depth is allowed for the color type, the compression and filter methods are 0, and the interlace method is defined |
| `PngDecoder.AppendToLast` | ImageLoader/Models/PNG.cs:146 | Continuation data is appended to the last payload, and the other payloads are unchanged |
| `PngDecoder.HandleHeader` | ImageLoader/Models/PNG.cs:70-113 | The IHDR case, run on the scan state, returns `AcceptHeader`, so it accepts exactly the headers `HeaderAcceptance` describes |
| `PngDecoder.HandleImageData` | ImageLoader/Models/PNG.cs:127-153 | The IDAT case, run on the scan state, returns `AcceptImageData`, whose outcomes `ImageDataAcceptance` lists |
| `PngDecoder.HandleAnimationControl` | ImageLoader/Models/PNG.cs:154-174 | The acTL case, run on the scan state, returns `AcceptAnimationControl`, so it accepts exactly the chunks `AnimationControlAcceptance` describes |
| `PngDecoder.HandleFrameControl` | ImageLoader/Models/PNG.cs:175-225 | The fcTL case, run on the scan state, returns `AcceptFrameControl` (with the bound check corrected, see "Findings"), so it accepts exactly the chunks `FrameControlAcceptance` describes |
| `PngDecoder.HandleFrameData` | ImageLoader/Models/PNG.cs:226-252 | The fdAT case, run on the scan state, returns `AcceptFrameData` (with the open-fcTL check corrected, see "Findings"), so it accepts exactly the chunks `FrameDataAcceptance` describes |
| `PngDecoder.ProcessChunk` | ImageLoader/Models/PNG.cs:68-258 | The `switch` over the chunk type, with the type recorded afterwards, gives the step `ApplyChunk` specifies (with the fcTL bound check and the fdAT check corrected, see "Findings") |
| `PngDecoder.Advance` | ImageLoader/Models/PNG.cs:259 | Every accepted chunk moves the read position forward and keeps it inside the data, so the loop terminates |
| `PngDecoder.ScanChunk` | ImageLoader/Models/PNG.cs:53-259 | One loop iteration reads a chunk, checks its CRC, applies it and advances the offset, as `Advance` specifies (with the fcTL bound check and the fdAT check corrected, see "Findings") |
| `PngDecoder.Scan` | ImageLoader/Models/PNG.cs:51-260 | The loop runs until IEND and gives the result of `Run` from the initial state (with the fcTL bound check and the fdAT check corrected, see "Findings") |
| `PngDecoder.BuildResult` | ImageLoader/Models/PNG.cs:263-317 | The checks after the loop and the frame-list construction give the result `Finish` specifies |
| `PngDecoder.Decode` | ImageLoader/Models/PNG.cs:24-317 | The whole decoder gives the result `DecodeSpec` specifies. `DecodeSpec` is the decoder with the fcTL bound check and the fdAT check corrected (see "Findings"); on the streams where the two differ, the code as written accepts what the model rejects, or rejects what it accepts |
| `DecoderProperties.InitialInv` | ImageLoader/Models/PNG.cs:26-41 | The initial scan state satisfies the loop invariant |
| `DecoderProperties.HeaderAcceptance` | ImageLoader/Models/PNG.cs:70-113 | An IHDR is accepted exactly when it comes first, is not a duplicate, has at least 13 bytes of payload and holds a valid header; the header is then recorded, and a second IHDR is the Duplicate error |
| `DecoderProperties.ImageDataOutcome` | ImageLoader/Models/PNG.cs:127-146 | An IDAT is accepted exactly when a chunk came before it and, if that chunk was an IDAT, a payload exists, and otherwise none does; with no chunk before it, or after an IDAT with no payload, it is IndexOutOfRange |
| `DecoderProperties.ImageDataAcceptance` | ImageLoader/Models/PNG.cs:127-153 | An IDAT is accepted exactly when a chunk came before it and, if that chunk was an IDAT, a payload exists, and otherwise none does. With no chunk before it, or after an IDAT with no payload, it is IndexOutOfRange; an IDAT that follows non-IDAT chunks once image data exists is the NonContinuous error. An accepted IDAT either extends the last payload or starts the first one, and it marks the default image as frame 0 when an acTL and exactly one fcTL came before it |
| `DecoderProperties.AnimationControlAcceptance` | ImageLoader/Models/PNG.cs:154-174 | An acTL is accepted exactly when it is the first acTL, precedes all image data, has at least 8 bytes of payload and declares a non-zero frame count; its counts are then recorded |
| `DecoderProperties.FrameControlAcceptance` | ImageLoader/Models/PNG.cs:175-225 | An fcTL is accepted exactly when no fcTL is waiting for data, it has at least 26 bytes of payload, its sequence number is the expected one, its rectangle is non-empty and inside the canvas (with the sums taken without wrap-around, the corrected check of "Findings"), and its dispose and blend ops are defined; the first frame must cover the canvas. The frame is then appended with a zero delay denominator replaced by 100, and the sequence number advances |
| `DecoderProperties.ConsecutiveFrameControl` | ImageLoader/Models/PNG.cs:177-180 | Two fcTL chunks in a row are rejected |
| `DecoderProperties.FrameDataAcceptance` | ImageLoader/Models/PNG.cs:226-252 | An fdAT is accepted exactly when an fcTL is waiting for data or the previous chunk was an fdAT, it has at least 4 bytes of payload (its sequence number), that sequence number is the expected one, and a chunk came before it. Without a waiting fcTL or a preceding fdAT it is the NoFrameControl error. An accepted fdAT starts a new payload after an fcTL, or extends the last one after another fdAT; it closes the fcTL and advances the sequence number, and leaves the frames unchanged |
| `DecoderProperties.SplitFrameData` | ImageLoader/Models/PNG.cs:241-248 | A frame's data may be split over two fdAT chunks in a row with consecutive sequence numbers: both are accepted, the sequence number advances by two, and after an fcTL the frame's payload is the two data parts joined |
| `DecoderProperties.FrameDataSplitRejected` | ImageLoader/Models/PNG.cs:228-251 | The fdAT step as written agrees with the corrected one after an fcTL, but rejects the second of two consecutive fdAT chunks with NoFrameControl, where the corrected step appends its data to the same payload |
| `DecoderProperties.ApplyChunkPreservesInv` | ImageLoader/Models/PNG.cs:68-258 | Every accepted chunk preserves the loop invariant. The invariant says: IHDR first and once with a valid header; PLTE, acTL and IEND at most once; one frame per fcTL; the sequence counter counts fcTL and fdAT; frame 0 covers the canvas; every frame fits the canvas; sequence numbers increase |
| `DecoderProperties.RunPreservesInv` | ImageLoader/Models/PNG.cs:51-260 | A successful scan ends in a state that satisfies the invariant and has seen IEND |
| `DecoderProperties.FinishErrors` | ImageLoader/Models/PNG.cs:263-286 | The post-scan checks raise, in order: MissingChunk for a missing IHDR or IEND or a palette image without PLTE; UnneededChunk for a PLTE in a grayscale image; FrameCountMismatch when the acTL's frame count differs from the fcTL count or the frame payload count; NoImageData when there is no payload |
| `DecoderProperties.FinishFrames` | ImageLoader/Models/PNG.cs:287-317 | A result has the header's width and height (through the `(int)` cast) and color type, and no frame pixels yet. With acTL, frame `i` gets payload `i`, or payload `i + 1` when the default image is not frame 0, and its rectangle, dispose mode and blend mode come from fcTL `i`. Without acTL, the one frame is the whole canvas with delay 0, dispose None and blend Normal |
| `DecoderProperties.FinishSound` | ImageLoader/Models/PNG.cs:263-317 | The post-scan checks fail exactly for missing IHDR or IEND, a palette image without PLTE, a PLTE in a grayscale image, mismatched frame counts, or no image data. On success: one frame per payload; frame 0 covers the canvas; the play count is the acTL's; every delay is `DelayMs` of its fcTL; every frame fits the canvas; plus the errors of `FinishErrors` and the frame-payload pairing of `FinishFrames` |
| `DecoderProperties.DecodeSound` | ImageLoader/Models/PNG.cs:24-317 | For the corrected decoder `DecodeSpec` (see "Findings"): a decoded stream began with a valid IHDR that occurs once and ended with IEND; the result has the header's size, frame `i` comes from fcTL `i` with payload `i` (or `i + 1` when the default image is not frame 0), and its frames cover and fit the canvas as above |
| `DecoderProperties.CorruptChunkRejected` | ImageLoader/Models/PNG.cs:59-66 | A chunk whose stored CRC differs from the CRC of its type and payload is rejected with CrcMismatch, at its type and offset |
| `DecoderProperties.AdvancePosition` | ImageLoader/Models/PNG.cs:259 | After a successful step, the next position is 12 bytes past the payload: the position plus the length field's value plus 12, or 2^32 less when `length + 4` wraps; a length whose size is negative never gets that far |
| `DecoderProperties.EncodedStreamAt` | ImageLoader/Models/PNG.cs:54-57 | The bytes of an encoded chunk sequence read back, chunk by chunk, as that sequence |
| `DecoderProperties.RunOverStream` | ImageLoader/Models/PNG.cs:51-260 | Scanning an encoded chunk sequence gives the same result as applying its chunks one after another |
| `DecoderProperties.FrameBoundWraps` | ImageLoader/Models/PNG.cs:207 | The fcTL bound check as written agrees with the intended one when the sums do not wrap, and accepts a frame at x offset 0xFFFFFFFF |
| `Scanline.ShortAbs` | ImageLoader/Models/PNG.cs:560-562 | The branch-free `short` absolute value is the absolute value |
| `Scanline.Paeth` | ImageLoader/Models/PNG.cs:555-576 | The predictor returns one of its three neighbours |
| `Scanline.PaethIsStandard` | ImageLoader/Models/PNG.cs:555-576 | The predictor is the PNG standard's Paeth predictor: the neighbour nearest to `a + b − c`, with ties going to `a` and then `b` |
| `Scanline.PredictorIsStandard` | ImageLoader/Models/PNG.cs:441-548 | The code's edge cases for each filter (a missing left or upper neighbour) are the standard predictors with missing neighbours read as 0 |
| `Scanline.BytesPerPixel` | ImageLoader/Models/PNG.cs:425-439 | An RGB pixel takes 3 bytes and an RGBA pixel 4, and 3 exactly for RGB |
| `Scanline.FilterOf` | ImageLoader/Models/PNG.cs:421 | Each row's filter byte is one of the five defined filter types |
| `Scanline.Unfilter` | ImageLoader/Models/PNG.cs:403-553 | The result is a `height * width * 4` canvas in which every channel of every pixel holds its reconstructed value, and for RGB every alpha byte is 255 |
| `Scanline.OpaqueAlpha` | ImageLoader/Models/PNG.cs:425-439 | In a reconstructed RGB canvas every pixel's alpha byte is 255 |
| `Scanline.ReconUsesRows` | ImageLoader/Models/PNG.cs:403-553 | Reconstruction reads only the `height * (1 + width * bpp)` bytes of the filtered rows: two inflated buffers that agree on them give the same channels |
| `Scanline.ReconstructedUsesRows` | ImageLoader/Models/PNG.cs:403-553 | A canvas reconstructed from one inflated buffer is the reconstruction of every buffer with the same filtered rows, so the bytes after them are ignored |
| `Scanline.WritePixel` | ImageLoader/Models/PNG.cs:425-548 | Writing one pixel extends the reconstructed prefix of the canvas by four bytes, in B, G, R, A order |
| `Scanline.WriteChannel` | ImageLoader/Models/PNG.cs:441-548 | Writing one channel from its filtered byte and its already reconstructed neighbours extends the reconstructed prefix by one byte |
| `Scanline.ReconOfEncoded` | ImageLoader/Models/PNG.cs:441-548 | Reconstructing data that was filtered from an image gives that image back, channel by channel, since adding a predictor modulo 256 undoes subtracting it |
| `Scanline.UnfilterRecoversImage` | ImageLoader/Models/PNG.cs:403-553 | The canvas `Unfilter` produces from data filtered from an image is that image |
| `Grid.IdxNeighbours` | ImageLoader/Models/PNG.cs:407-409 | The left neighbour lies 4 bytes back in the canvas, and the upper neighbour `4 * width` bytes back |
| `Animation.DrawnOutside` | ImageLoader/Exts/Animation.cs:71-101 | Drawing a frame leaves every canvas byte outside its rectangle unchanged |
| `Animation.DrawnInside` | ImageLoader/Exts/Animation.cs:71-101 | Inside the rectangle, a Normal frame's byte is copied; a blended frame's colour bytes are mixed with the old canvas byte by the pixel's alpha, and its alpha byte is 255 |
| `Animation.DrawnTwice` | ImageLoader/Exts/Animation.cs:92-98 | Drawing a Normal frame twice is the same as drawing it once |
| `Animation.DrawnCovers` | ImageLoader/Exts/Animation.cs:92-98 | A Normal frame that covers the whole canvas leaves a result that does not depend on what was on the canvas |
| `Animation.Pass` | ImageLoader/Exts/Animation.cs:48-101 | One pass of the loop body keeps both buffers at the canvas size |
| `Animation.Canvases` | ImageLoader/Exts/Animation.cs:37-118 | After any number of passes both buffers have the canvas size |
| `Animation.PassSavesShown` | ImageLoader/Exts/Animation.cs:48-68 | Whatever the dispose mode, a pass saves the output of the previous pass |
| `Animation.PreviousRestores` | ImageLoader/Exts/Animation.cs:63-67 | A frame disposed with Previous is drawn over the output of two passes earlier, and the previous output is saved |
| `Animation.BackgroundForgets` | ImageLoader/Exts/Animation.cs:54-61 | A frame disposed with Background is drawn over a blank canvas, so its output does not depend on the earlier buffers |
| `Animation.Played` | ImageLoader/Exts/Animation.cs:40 | The loop stops after exactly `times` rounds of all frames when `times` is positive; otherwise it runs for as long as it is let run |
| `Animation.Player.constructor` | ImageLoader/Exts/Animation.cs:29-35 | Both buffers start zeroed at the canvas size, at frame 0 with no round counted |
| `Animation.Player.SaveOutput` | ImageLoader/Exts/Animation.cs:52 | The saved buffer becomes a copy of the output, and the output is unchanged |
| `Animation.Player.ClearOutput` | ImageLoader/Exts/Animation.cs:57-61 | Every output byte becomes 0 |
| `Animation.Player.DisposeBuffers` | ImageLoader/Exts/Animation.cs:48-68 | The buffers become what the current frame's dispose mode prescribes: None saves the output; Background saves and clears it; Previous swaps the two buffers |
| `Animation.Player.PaintChannel` | ImageLoader/Exts/Animation.cs:86-98 | Writing one canvas byte extends the painted part of the frame by one channel |
| `Animation.Player.DrawPixel` | ImageLoader/Exts/Animation.cs:76-99 | Drawing one pixel, blended or copied as the frame's blend mode says, extends the painted part by that pixel |
| `Animation.Player.BlendPixel` | ImageLoader/Exts/Animation.cs:78-90 | Blending one pixel extends the painted part by that pixel |
| `Animation.Player.CopyPixel` | ImageLoader/Exts/Animation.cs:92-98 | Copying one pixel extends the painted part by that pixel |
| `Animation.Player.Draw` | ImageLoader/Exts/Animation.cs:71-101 | Drawing the current frame leaves the output buffer equal to `Drawn` of its old contents |
| `Animation.Player.Advance` | ImageLoader/Exts/Animation.cs:114-118 | Moving to the next frame advances `count * |frames| + frame` by one: the index wraps to 0 and counts a round at the end |
| `Animation.Player.Step` | ImageLoader/Exts/Animation.cs:47-118 | One iteration of the loop body turns the buffers into `Pass` of the old buffers with the current frame, and advances the frame |
| `Animation.Play` | ImageLoader/Exts/Animation.cs:24-120 | After the loop, the number of passes is `Played`, the frame index and round count are that number modulo and divided by the frame count, and the buffers are `Canvases` of that many passes |

## Left out

- File and stream I/O. The decoder works on the bytes that follow the signature, and the stream
  reads (`ReadUINT(Stream)` and `ReadBytes`) become `ReadChunk` over those bytes. A short read is
  an error result.
- zlib inflate. `Decode` returns each frame with the compressed payload its pixels come from, and
  leaves the frame's `data` empty; `Unfilter` takes already inflated data.
- CRC-32. The checksum is a function parameter of the decoder.
- `Animation.Play`'s floating-point alpha blend. The blend of a colour channel is the parameter
  `mix`, a function of the frame byte, the canvas byte and the alpha.
- Threading, `Thread.Sleep` for the frame delay, the dispatcher call that shows a frame, and
  `FrameModel.CreateBitmap`.
- Cancellation. `Play` replaces its `source` argument with a token source of its own, and the
  window's field that would hold it is never assigned, so no caller can cancel the loop. The
  model bounds the loop by a number of passes, `budget`, instead.
- `Animation.Play`: `times` below 0 never stops the loop in the code. The model covers it like
  `times == 0`, up to the budget.
- Grayscale, palette and grayscale-with-alpha images in `Unfilter`. These are excluded by its
  `Expandable` precondition; for them the code reads no samples and writes the previous pixel's
  values again.
- 16-bit samples and Adam7 interlacing in `Unfilter`. The code does not look at the bit depth or
  the interlace method, and reads such data as 8-bit rows in order. The model does the same: it
  allows any depth and interlace method, and does not model 16-bit samples or the Adam7 passes.
- Filter bytes above 4. These are excluded by the `WellFiltered` precondition. The code then
  writes nothing for the row and does not advance the canvas offset.
- Truncated inflated data. This is also excluded by `WellFiltered`; the code would throw
  IndexOutOfRange.
- `int` overflow in `height * width * 4` and in the canvas offsets of `Unfilter` and `Play`. The
  model uses unbounded integers there.
- `PngDecoder`: `int` overflow of the decoder's file offset and sequence counter. Both are `nat`
  in the model. In the code, past 2^31 bytes of stream the offset in error messages turns negative,
  and past 2^31 numbered chunks the counter turns negative, so no later fcTL or fdAT sequence
  number can match it and all of them are rejected. Only streams over 2 GiB reach either.
- `Animation.Play` with an empty frame list, or with frames whose rectangle or data do not fit the
  canvas. These are excluded by its precondition. For an empty list or short frame data the code
  throws IndexOutOfRange. For a rectangle that does not fit, the code computes one flat offset
  per row, `((y + YOffset) * width + XOffset) * 4`. So a row that runs past the right edge (or
  starts left of it) but stays inside the buffer is written into the neighbouring canvas row, and
  only a write outside the buffer throws IndexOutOfRange.
- `Scanline.ShortAbs`: the bit trick is stated arithmetically over the range the three
  differences can take. Two's-complement bit operations are not modelled.

## Findings

| source | as written | input that shows it | evidently intended | confidence | as-written member | corrected member |
|---|---|---|---|---|---|---|
| ImageLoader/Models/PNG.cs:207 | The fcTL bound check `XOffset + Width > ImageHeader.Width` (and the same for Y) adds two `uint` values, so the sum wraps modulo 2^32 | An fcTL with x offset 0xFFFFFFFF and width 2 on a 10 x 10 canvas: the sum wraps to 1, so the check passes | The frame rectangle must lie inside the canvas, with the sums taken without wrap-around | not executed | `DecoderProperties.FrameBoundWraps` | `PngDecoder.FrameInsideCanvas` |
| ImageLoader/Models/PNG.cs:228-251 | Every fdAT needs an open fcTL, and an accepted fdAT closes it, so the branch that appends a second fdAT to the same frame (lines 241-248) can never run | An fcTL with sequence number n followed by two fdAT chunks with sequence numbers n+1 and n+2: the second is rejected with NoFrameControl | An fdAT that directly follows another fdAT continues the same frame, and its data is appended to that frame's payload | not executed | `DecoderProperties.FrameDataSplitRejected` | `PngDecoder.AcceptFrameData` |

`DecoderProperties.FrameInsideCanvasAsWritten` is the check as the code evaluates it.
`DecoderProperties.FrameBoundWraps` proves two things about it: it agrees with the intended check
whenever the sums do not wrap, and it accepts the input in the table. The decoder uses the
corrected `PngDecoder.FrameInsideCanvas`. `DecoderProperties.FinishSound` proves that every frame
it returns fits the canvas.

`DecoderProperties.AcceptFrameDataAsWritten` is the fdAT step as the code evaluates it.
`DecoderProperties.FrameDataSplitRejected` proves that it rejects the second of two consecutive
fdAT chunks, which the corrected step accepts. The decoder uses the corrected
`PngDecoder.AcceptFrameData`, which also accepts an fdAT right after another fdAT.
`DecoderProperties.SplitFrameData` proves that a frame's data split over two fdAT chunks becomes
one payload.
