/**
 * What the chunk validator guarantees: the acceptance condition of each chunk type, the
 * invariant the chunk loop keeps, the shape of a successful result, and how the loop walks a
 * well-formed stream (offsets from 8, each chunk `payload + 12` bytes long, CRCs checked).
 */
module DecoderProperties {
  import opened Wrappers
  import opened ByteOrder
  import opened PngConstants
  import opened ChunkStream
  import opened PngDecoder
  import FM = FrameModels

  /** How many of the recorded chunk types equal `t`. */
  function CountOf(chunks: seq<string>, t: string): nat
  {
    if chunks == [] then 0
    else CountOf(chunks[..|chunks| - 1], t) + (if chunks[|chunks| - 1] == t then 1 else 0)
  }

  lemma CountOfSnoc(chunks: seq<string>, t: string)
    ensures forall u :: CountOf(chunks + [t], u) == CountOf(chunks, u) + (if t == u then 1 else 0)
  {
    assert (chunks + [t])[..|chunks|] == chunks;
  }

  /** The checks an accepted fcTL record passed, whatever its position. */
  predicate FrameAccepted(f: FrameControl, h: ImageHeader)
  {
    f.width != 0 && f.height != 0 && FrameInsideCanvas(f, h)
    && DisposeDefined(f.disposeOp) && BlendDefined(f.blendOp)
  }

  /** The first frame covers the whole canvas. */
  predicate CoversCanvas(f: FrameControl, h: ImageHeader)
  {
    f.xOffset == 0 && f.yOffset == 0 && f.width == h.width && f.height == h.height
  }

  /** The invariant of the chunk loop. */
  ghost predicate Inv(st: ScanState)
  {
    // IHDR is the first chunk, appears once, and holds a valid header
    && (st.hasIHDR <==> |st.chunks| > 0 && st.chunks[0] == "IHDR")
    && CountOf(st.chunks, "IHDR") == (if st.hasIHDR then 1 else 0)
    && (st.hasIHDR ==> HeaderFault(st.header) == None)
    && (!st.hasIHDR ==> st.header == DefaultHeader)
    // PLTE and acTL appear at most once, and the flags record whether they did
    && CountOf(st.chunks, "PLTE") == (if st.hasPLTE then 1 else 0)
    && CountOf(st.chunks, "acTL") == (if st.hasACTL then 1 else 0)
    && (st.hasACTL ==> st.animation.numFrames != 0)
    // IEND ends the scan
    && CountOf(st.chunks, "IEND") == (if st.hasIEND then 1 else 0)
    && (st.hasIEND ==> st.chunks[|st.chunks| - 1] == "IEND")
    // one frame per fcTL; the sequence counter counts fcTL and fdAT chunks
    && |st.frames| == CountOf(st.chunks, "fcTL")
    && st.sequence == CountOf(st.chunks, "fcTL") + CountOf(st.chunks, "fdAT")
    && (st.isFCTL ==> |st.frames| > 0)
    && (|st.frames| > 0 ==> st.hasIHDR && CoversCanvas(st.frames[0], st.header) && st.frames[0].sequenceNumber == 0)
    && (forall i :: 0 <= i < |st.frames| ==> FrameAccepted(st.frames[i], st.header))
    && (forall i :: 0 <= i < |st.frames| ==> st.frames[i].sequenceNumber < st.sequence)
    && (forall i, j :: 0 <= i < j < |st.frames| ==> st.frames[i].sequenceNumber < st.frames[j].sequenceNumber)
  }

  /** The decoder starts in a state that satisfies the invariant. (The state is handed out as a
      variable equal to `Initial` for the run over `data`.) */
  lemma InitialInv(data: seq<byte>, crc32: seq<byte> -> uint32) returns (st: ScanState)
    ensures Inv(st) && Run(data, 0, st, crc32) == Run(data, 0, Initial, crc32)
  {
    st := Initial;
  }

  /** An IHDR chunk is accepted iff it is the first chunk, no IHDR came before, its payload has
      the 13 header bytes and the header passes every check; the header is then stored. */
  lemma HeaderAcceptance(st: ScanState, buffer: seq<byte>, offset: nat)
    requires TypeOf(buffer) == "IHDR"
    ensures ApplyChunk(st, buffer, offset).Success? <==>
      !st.hasIHDR && |st.chunks| == 0 && |buffer| >= 17 && HeaderFault(ParseHeader(buffer)) == None
    ensures ApplyChunk(st, buffer, offset).Success? ==>
      ApplyChunk(st, buffer, offset).value == st.(header := ParseHeader(buffer), hasIHDR := true, chunks := ["IHDR"])
    ensures st.hasIHDR ==> ApplyChunk(st, buffer, offset) == Failure(ChunkError("IHDR", offset, Duplicate))
  {
  }

  /** acTL is accepted iff it is the first acTL, no payload exists yet, and NumFrames is not 0. */
  lemma AnimationControlAcceptance(st: ScanState, buffer: seq<byte>, offset: nat)
    requires TypeOf(buffer) == "acTL"
    ensures ApplyChunk(st, buffer, offset).Success? <==>
      !st.hasACTL && |st.images| == 0 && |buffer| >= 12 && ReadUint32(buffer, 4).value != 0
    ensures ApplyChunk(st, buffer, offset).Success? ==>
      var r := ApplyChunk(st, buffer, offset).value;
      r.hasACTL && r.animation == AnimationControl(ReadUint32(buffer, 4).value, ReadUint32(buffer, 8).value)
  {
  }

  /** fcTL is accepted iff no fcTL is open, its sequence number is the running counter (which is
      0 for the first one), the first one covers the canvas, and the record passes the size,
      dispose and blend checks. It is stored with a zero DelayDen replaced by 100, and the
      counter moves on by one. */
  lemma FrameControlAcceptance(st: ScanState, buffer: seq<byte>, offset: nat)
    requires TypeOf(buffer) == "fcTL"
    ensures ApplyChunk(st, buffer, offset).Success? <==>
      && !st.isFCTL && |buffer| >= 30
      && var f := ParseFrameControl(buffer);
      && f.sequenceNumber == st.sequence
      && (|st.frames| == 0 ==> st.sequence == 0 && CoversCanvas(f, st.header))
      && FrameAccepted(f, st.header)
    ensures ApplyChunk(st, buffer, offset).Success? ==>
      var r := ApplyChunk(st, buffer, offset).value;
      var f := ParseFrameControl(buffer);
      && r.frames == st.frames + [f.(delayDen := if f.delayDen == 0 then 100 else f.delayDen)]
      && r.sequence == st.sequence + 1 && r.isFCTL
      && r.images == st.images
  {
  }

  /** fdAT is accepted exactly when an fcTL is open or the chunk before it was an fdAT, its
      sequence number is the running one, and the list lookups of the code find an entry. It
      closes the fcTL and moves the counter on by one. Its data starts a new payload unless the
      previous chunk was an fdAT, whose payload it then extends. */
  lemma FrameDataAcceptance(st: ScanState, buffer: seq<byte>, offset: nat)
    requires TypeOf(buffer) == "fdAT"
    ensures ApplyChunk(st, buffer, offset).Success? <==>
      && (st.isFCTL || Follows(st, "fdAT"))
      && |buffer| >= 8 && ReadUint32(buffer, 4).value == st.sequence
      && |st.chunks| > 0 && (Follows(st, "fdAT") ==> |st.images| > 0)
    ensures !st.isFCTL && !Follows(st, "fdAT") ==>
      ApplyChunk(st, buffer, offset) == Failure(ChunkError("fdAT", offset, NoFrameControl))
    ensures ApplyChunk(st, buffer, offset).Success? ==>
      var r := ApplyChunk(st, buffer, offset).value;
      && r.sequence == st.sequence + 1 && !r.isFCTL && r.frames == st.frames && r.chunks == st.chunks + ["fdAT"]
      && (!Follows(st, "fdAT") ==> r.images == st.images + [buffer[8..]])
      && (Follows(st, "fdAT") ==>
            |st.images| > 0 && r.images == st.images[..|st.images| - 1] + [st.images[|st.images| - 1] + buffer[8..]])
  {
  }

  /** A frame's data split over two fdAT chunks with consecutive sequence numbers is joined into
      one payload, and the frame list does not change. */
  lemma SplitFrameData(st: ScanState, b1: seq<byte>, o1: nat, b2: seq<byte>, o2: nat)
    requires TypeOf(b1) == "fdAT" && TypeOf(b2) == "fdAT"
    requires ApplyChunk(st, b1, o1).Success?
    requires |b2| >= 8 && ReadUint32(b2, 4).value == st.sequence + 1
    ensures ApplyChunk(ApplyChunk(st, b1, o1).value, b2, o2).Success?
    ensures var r := ApplyChunk(ApplyChunk(st, b1, o1).value, b2, o2).value;
      && r.frames == st.frames && r.sequence == st.sequence + 2 && !r.isFCTL
      && (!Follows(st, "fdAT") ==> r.images == st.images + [b1[8..] + b2[8..]])
  {
    FrameDataAcceptance(st, b1, o1);
    var s1 := ApplyChunk(st, b1, o1).value;
    FrameDataAcceptance(s1, b2, o2);
    if !Follows(st, "fdAT") {
      var r := ApplyChunk(s1, b2, o2).value;
      assert s1.images == st.images + [b1[8..]];
      assert r.images == s1.images[..|s1.images| - 1] + [s1.images[|s1.images| - 1] + b2[8..]];
      assert s1.images[..|s1.images| - 1] == st.images;
    }
  }

  /** Two fcTL chunks in a row: the second is rejected, because the first is still open. */
  lemma ConsecutiveFrameControl(st: ScanState, b1: seq<byte>, o1: nat, b2: seq<byte>, o2: nat)
    requires TypeOf(b1) == "fcTL" && TypeOf(b2) == "fcTL"
    requires ApplyChunk(st, b1, o1).Success?
    ensures ApplyChunk(ApplyChunk(st, b1, o1).value, b2, o2).Failure?
  {
    FrameControlAcceptance(st, b1, o1);
    FrameControlAcceptance(ApplyChunk(st, b1, o1).value, b2, o2);
  }

  /** When an IDAT is accepted, and the IndexOutOfRange of the lookups of the previous chunk's type
      and of the last payload. */
  lemma ImageDataOutcome(st: ScanState, buffer: seq<byte>, offset: nat)
    requires TypeOf(buffer) == "IDAT"
    ensures ApplyChunk(st, buffer, offset).Success? <==>
      |st.chunks| > 0 && (if st.chunks[|st.chunks| - 1] == "IDAT" then |st.images| > 0 else |st.images| == 0)
    ensures |st.chunks| == 0 ==> ApplyChunk(st, buffer, offset) == Failure(IndexOutOfRange)
    ensures |st.chunks| > 0 && st.chunks[|st.chunks| - 1] == "IDAT" && |st.images| == 0 ==>
      ApplyChunk(st, buffer, offset) == Failure(IndexOutOfRange)
  {
  }

  /** IDAT: a chunk right after an IDAT extends the last payload; an IDAT run that starts
      elsewhere is rejected once any payload exists, and otherwise becomes the first payload, which
      is also animation frame 0 exactly when acTL came first and one fcTL is recorded. With no
      chunk before it, the lookup of the previous chunk's type fails. */
  lemma ImageDataAcceptance(st: ScanState, buffer: seq<byte>, offset: nat)
    requires TypeOf(buffer) == "IDAT"
    ensures ApplyChunk(st, buffer, offset).Success? <==>
      |st.chunks| > 0 && (if st.chunks[|st.chunks| - 1] == "IDAT" then |st.images| > 0 else |st.images| == 0)
    ensures |st.chunks| == 0 ==> ApplyChunk(st, buffer, offset) == Failure(IndexOutOfRange)
    ensures |st.chunks| > 0 && st.chunks[|st.chunks| - 1] == "IDAT" && |st.images| == 0 ==>
      ApplyChunk(st, buffer, offset) == Failure(IndexOutOfRange)
    ensures |st.chunks| > 0 && st.chunks[|st.chunks| - 1] != "IDAT" && |st.images| != 0 ==>
      ApplyChunk(st, buffer, offset) == Failure(ChunkError("IDAT", offset, NonContinuous))
    ensures ApplyChunk(st, buffer, offset).Success? ==>
      var r := ApplyChunk(st, buffer, offset).value;
      && |st.chunks| > 0
      && (st.chunks[|st.chunks| - 1] == "IDAT" ==>
            |st.images| > 0 && r.images == st.images[..|st.images| - 1] + [st.images[|st.images| - 1] + buffer[4..]]
            && r.isIdatFrame == st.isIdatFrame)
      && (st.chunks[|st.chunks| - 1] != "IDAT" ==>
            r.images == [buffer[4..]] && r.isIdatFrame == (st.isIdatFrame || (st.hasACTL && |st.frames| == 1)))
      && r.isFCTL == (st.isFCTL && !st.hasACTL)
  {
    ImageDataOutcome(st, buffer, offset);
  }

  /** One accepted chunk keeps the loop invariant. */
  lemma ApplyChunkPreservesInv(st: ScanState, buffer: seq<byte>, offset: nat)
    requires Inv(st) && !st.hasIEND
    requires ApplyChunk(st, buffer, offset).Success?
    ensures Inv(ApplyChunk(st, buffer, offset).value)
  {
    var k := KindOf(TypeOf(buffer));
    if k == IHDR {
      HeaderStep(st, buffer, offset);
    } else if k == FcTL {
      FrameControlStep(st, buffer, offset);
    } else {
      OtherStep(st, buffer, offset);
    }
  }

  lemma HeaderStep(st: ScanState, buffer: seq<byte>, offset: nat)
    requires Inv(st) && !st.hasIEND && KindOf(TypeOf(buffer)) == IHDR
    requires ApplyChunk(st, buffer, offset).Success?
    ensures Inv(ApplyChunk(st, buffer, offset).value)
  {
    assert |st.chunks| == 0;
    assert ApplyChunk(st, buffer, offset).value.chunks == ["IHDR"];
  }

  /** PLTE, IDAT, acTL, fdAT, IEND and unknown chunks: the header and the frames stay. */
  lemma OtherStep(st: ScanState, buffer: seq<byte>, offset: nat)
    requires Inv(st) && !st.hasIEND
    requires KindOf(TypeOf(buffer)) != IHDR && KindOf(TypeOf(buffer)) != FcTL
    requires ApplyChunk(st, buffer, offset).Success?
    ensures Inv(ApplyChunk(st, buffer, offset).value)
  {
    match KindOf(TypeOf(buffer)) {
      case PLTE => PaletteQuiet(st, buffer, offset);
      case IDAT => ImageDataQuiet(st, buffer, offset);
      case AcTL => AnimationControlQuiet(st, buffer, offset);
      case FdAT => FrameDataQuiet(st, buffer, offset);
      case IEND => EndQuiet(st, buffer, offset);
      case Unknown => UnknownQuiet(st, buffer, offset);
    }
    KeepsInv(st, ApplyChunk(st, buffer, offset).value, TypeOf(buffer));
  }

  /** What a chunk other than IHDR and fcTL may change in the decoder's state. */
  predicate Quiet(st: ScanState, r: ScanState, t: string)
  {
    && t != "IHDR" && t != "fcTL" && r.chunks == st.chunks + [t]
    && r.header == st.header && r.frames == st.frames && r.hasIHDR == st.hasIHDR
    && r.sequence == st.sequence + (if t == "fdAT" then 1 else 0)
    && (r.isFCTL ==> st.isFCTL)
    && r.hasPLTE == (st.hasPLTE || t == "PLTE") && (t == "PLTE" ==> !st.hasPLTE)
    && r.hasACTL == (st.hasACTL || t == "acTL") && (t == "acTL" ==> !st.hasACTL && r.animation.numFrames != 0)
    && (t != "acTL" ==> r.animation == st.animation)
    && r.hasIEND == (t == "IEND")
  }

  lemma PaletteQuiet(st: ScanState, buffer: seq<byte>, offset: nat)
    requires !st.hasIEND && KindOf(TypeOf(buffer)) == PLTE && ApplyChunk(st, buffer, offset).Success?
    ensures Quiet(st, ApplyChunk(st, buffer, offset).value, TypeOf(buffer))
  {
  }

  lemma ImageDataQuiet(st: ScanState, buffer: seq<byte>, offset: nat)
    requires !st.hasIEND && KindOf(TypeOf(buffer)) == IDAT && ApplyChunk(st, buffer, offset).Success?
    ensures Quiet(st, ApplyChunk(st, buffer, offset).value, TypeOf(buffer))
  {
    var t := TypeOf(buffer);
    ImageDataFields(st, t, buffer, offset);
    assert ApplyChunk(st, buffer, offset).value == AcceptImageData(st, t, buffer, offset).value.(chunks := st.chunks + [t]);
  }

  /** IDAT changes only the payloads and the two frame flags, and never opens an fcTL. */
  lemma ImageDataFields(st: ScanState, t: string, buffer: seq<byte>, offset: nat)
    requires |buffer| >= 4 && AcceptImageData(st, t, buffer, offset).Success?
    ensures var a := AcceptImageData(st, t, buffer, offset).value;
      a == st.(images := a.images, isIdatFrame := a.isIdatFrame, isFCTL := a.isFCTL) && (a.isFCTL ==> st.isFCTL)
  {
  }

  lemma AnimationControlQuiet(st: ScanState, buffer: seq<byte>, offset: nat)
    requires !st.hasIEND && KindOf(TypeOf(buffer)) == AcTL && ApplyChunk(st, buffer, offset).Success?
    ensures Quiet(st, ApplyChunk(st, buffer, offset).value, TypeOf(buffer))
  {
  }

  lemma FrameDataQuiet(st: ScanState, buffer: seq<byte>, offset: nat)
    requires !st.hasIEND && KindOf(TypeOf(buffer)) == FdAT && ApplyChunk(st, buffer, offset).Success?
    ensures Quiet(st, ApplyChunk(st, buffer, offset).value, TypeOf(buffer))
  {
  }

  lemma EndQuiet(st: ScanState, buffer: seq<byte>, offset: nat)
    requires !st.hasIEND && KindOf(TypeOf(buffer)) == IEND && ApplyChunk(st, buffer, offset).Success?
    ensures Quiet(st, ApplyChunk(st, buffer, offset).value, TypeOf(buffer))
  {
  }

  lemma UnknownQuiet(st: ScanState, buffer: seq<byte>, offset: nat)
    requires !st.hasIEND && KindOf(TypeOf(buffer)) == Unknown && ApplyChunk(st, buffer, offset).Success?
    ensures Quiet(st, ApplyChunk(st, buffer, offset).value, TypeOf(buffer))
  {
  }

  /** The invariant across a chunk that neither sets the header nor adds a frame. */
  lemma KeepsInv(st: ScanState, r: ScanState, t: string)
    requires Inv(st) && !st.hasIEND && Quiet(st, r, t)
    ensures Inv(r)
  {
    CountOfSnoc(st.chunks, t);
  }

  /** An accepted fcTL adds one frame that passed the checks, with the next sequence number. */
  lemma FrameControlStep(st: ScanState, buffer: seq<byte>, offset: nat)
    requires Inv(st) && !st.hasIEND && KindOf(TypeOf(buffer)) == FcTL
    requires ApplyChunk(st, buffer, offset).Success?
    ensures Inv(ApplyChunk(st, buffer, offset).value)
  {
    var t := TypeOf(buffer);
    var g := FrameControlFields(st, t, buffer, offset);
    var a := AcceptFrameControl(st, t, buffer, offset).value;
    assert ApplyChunk(st, buffer, offset).value == a.(chunks := st.chunks + [t]);
    FrameControlKeepsInv(st, a.(chunks := st.chunks + [t]), t, g);
  }

  /** An accepted fcTL appends one accepted frame with the running sequence number. */
  lemma FrameControlFields(st: ScanState, t: string, buffer: seq<byte>, offset: nat) returns (g: AcceptedFrameControl)
    requires AcceptFrameControl(st, t, buffer, offset).Success?
    ensures AcceptFrameControl(st, t, buffer, offset).value ==
      st.(frames := st.frames + [g], sequence := st.sequence + 1, isFCTL := true)
    ensures FrameAccepted(g, st.header) && g.sequenceNumber == st.sequence
    ensures |st.frames| == 0 ==> st.sequence == 0 && CoversCanvas(g, st.header)
  {
    var r := AcceptFrameControl(st, t, buffer, offset).value;
    g := r.frames[|st.frames|];
  }

  /** Appending such a frame on an fcTL keeps the invariant. */
  lemma FrameControlKeepsInv(st: ScanState, r: ScanState, t: string, g: AcceptedFrameControl)
    requires Inv(st) && !st.hasIEND && t == "fcTL"
    requires r == st.(chunks := st.chunks + [t], frames := st.frames + [g], sequence := st.sequence + 1, isFCTL := true)
    requires FrameAccepted(g, st.header) && g.sequenceNumber == st.sequence
    requires |st.frames| == 0 ==> st.sequence == 0 && CoversCanvas(g, st.header)
    ensures Inv(r)
  {
    CountOfSnoc(st.chunks, t);
    if |st.frames| == 0 {
      assert st.header != DefaultHeader;
    }
  }

  /** A per-chunk step keeps the invariant on every chunk it accepts before IEND. */
  ghost predicate StepKeepsInv(apply: ChunkStep)
  {
    forall st, buffer, offset ::
      Inv(st) && !st.hasIEND && apply(st, buffer, offset).Success? ==> Inv(apply(st, buffer, offset).value)
  }

  /** The decoder's per-chunk step keeps the invariant. */
  lemma ApplyChunkKeepsInv()
    ensures StepKeepsInv(ApplyChunk)
  {
    forall st, buffer, offset: nat | Inv(st) && !st.hasIEND && ApplyChunk(st, buffer, offset).Success?
      ensures Inv(ApplyChunk(st, buffer, offset).value)
    {
      ApplyChunkPreservesInv(st, buffer, offset);
    }
  }

  /** Every state the chunk loop ends in satisfies the invariant and has seen IEND. */
  lemma RunPreservesInv(data: seq<byte>, pos: nat, st: ScanState, crc32: seq<byte> -> uint32)
    requires pos <= |data| && Inv(st)
    requires Run(data, pos, st, crc32).Success?
    ensures Inv(Run(data, pos, st, crc32).value) && Run(data, pos, st, crc32).value.hasIEND
  {
    RunIsRunWith(data, pos, st, crc32);
    ApplyChunkKeepsInv();
    RunWithPreservesInv(ApplyChunk, data, pos, st, crc32);
  }

  /** `RunPreservesInv` for any per-chunk step that keeps the invariant. */
  lemma {:induction false} RunWithPreservesInv(apply: ChunkStep, data: seq<byte>, pos: nat, st: ScanState,
                                               crc32: seq<byte> -> uint32)
    requires pos <= |data| && Inv(st) && StepKeepsInv(apply)
    requires RunWith(apply, data, pos, st, crc32).Success?
    ensures Inv(RunWith(apply, data, pos, st, crc32).value) && RunWith(apply, data, pos, st, crc32).value.hasIEND
    decreases |data| - pos
  {
    if !st.hasIEND {
      var c := ReadChunk(data, pos).value;
      var next := apply(st, c.buffer, SignatureLength + pos).value;
      RunWithPreservesInv(apply, data, pos + |c.buffer| + 8, next, crc32);
    }
  }

  /** Which error each failed post-scan check raises, in the order the checks run. */
  lemma FinishErrors(st: ScanState)
    ensures
      var missing := !st.hasIHDR || !st.hasIEND || (st.header.colorType == ColorTypeCode(Palette) && !st.hasPLTE);
      var unneeded := st.hasPLTE && (st.header.colorType == ColorTypeCode(Grayscale) || st.header.colorType == ColorTypeCode(GrayscaleAlpha));
      var mismatch := st.hasACTL && (st.animation.numFrames != |st.frames| || st.animation.numFrames != |st.images| - PayloadSkip(st));
      && (missing ==> Finish(st) == Failure(MissingChunk))
      && (!missing && unneeded ==> Finish(st) == Failure(UnneededChunk))
      && (!missing && !unneeded && mismatch ==> Finish(st) == Failure(FrameCountMismatch))
      && (!missing && !unneeded && !mismatch && |st.images| == 0 ==> Finish(st) == Failure(NoImageData))
  {
  }

  /** Which payload and which fcTL each returned frame comes from, and the canvas size. */
  lemma FinishFrames(st: ScanState)
    ensures Finish(st).Success? ==>
      var d := Finish(st).value;
      && d.width == ToInt32(st.header.width) && d.height == ToInt32(st.header.height)
      && d.colorType == st.header.colorType
      && (forall i :: 0 <= i < |d.frames| ==> d.frames[i].data == [])
      && (!st.hasACTL ==> d.frames[0].delay == 0 && d.frames[0].dispose == FM.None && d.frames[0].blend == FM.Normal)
      && (st.hasACTL ==>
            && |d.frames| == |st.frames|
            && forall i :: 0 <= i < |d.frames| ==>
                 && d.payloads[i] == st.images[i + PayloadSkip(st)]
                 && d.frames[i].xOffset == ToInt32(st.frames[i].xOffset)
                 && d.frames[i].yOffset == ToInt32(st.frames[i].yOffset)
                 && d.frames[i].width == ToInt32(st.frames[i].width)
                 && d.frames[i].height == ToInt32(st.frames[i].height)
                 && d.frames[i].dispose == DisposeModeOf(st.frames[i].disposeOp)
                 && d.frames[i].blend == BlendModeOf(st.frames[i].blendOp))
  {
  }

  /** The checks after the scan: what makes them fail, and what a successful result holds. */
  lemma FinishSound(st: ScanState)
    requires Inv(st)
    ensures Finish(st).Failure? <==>
      || !st.hasIHDR || !st.hasIEND
      || (st.header.colorType == ColorTypeCode(Palette) && !st.hasPLTE)
      || (st.hasPLTE && (st.header.colorType == ColorTypeCode(Grayscale) || st.header.colorType == ColorTypeCode(GrayscaleAlpha)))
      || (st.hasACTL && (st.animation.numFrames != |st.frames| || st.animation.numFrames != |st.images| - PayloadSkip(st)))
      || |st.images| == 0
    ensures
      var missing := !st.hasIHDR || !st.hasIEND || (st.header.colorType == ColorTypeCode(Palette) && !st.hasPLTE);
      var unneeded := st.hasPLTE && (st.header.colorType == ColorTypeCode(Grayscale) || st.header.colorType == ColorTypeCode(GrayscaleAlpha));
      var mismatch := st.hasACTL && (st.animation.numFrames != |st.frames| || st.animation.numFrames != |st.images| - PayloadSkip(st));
      && (missing ==> Finish(st) == Failure(MissingChunk))
      && (!missing && unneeded ==> Finish(st) == Failure(UnneededChunk))
      && (!missing && !unneeded && mismatch ==> Finish(st) == Failure(FrameCountMismatch))
      && (!missing && !unneeded && !mismatch && |st.images| == 0 ==> Finish(st) == Failure(NoImageData))
    ensures Finish(st).Success? ==>
      var d := Finish(st).value;
      && d.width == ToInt32(st.header.width) && d.height == ToInt32(st.header.height)
      && d.colorType == st.header.colorType
      && (forall i :: 0 <= i < |d.frames| ==> d.frames[i].data == [])
      && (!st.hasACTL ==> d.frames[0].delay == 0 && d.frames[0].dispose == FM.None && d.frames[0].blend == FM.Normal)
      && (st.hasACTL ==>
            && |d.frames| == |st.frames|
            && forall i :: 0 <= i < |d.frames| ==>
                 && d.payloads[i] == st.images[i + PayloadSkip(st)]
                 && d.frames[i].xOffset == ToInt32(st.frames[i].xOffset)
                 && d.frames[i].yOffset == ToInt32(st.frames[i].yOffset)
                 && d.frames[i].width == ToInt32(st.frames[i].width)
                 && d.frames[i].height == ToInt32(st.frames[i].height)
                 && d.frames[i].dispose == DisposeModeOf(st.frames[i].disposeOp)
                 && d.frames[i].blend == BlendModeOf(st.frames[i].blendOp))
    ensures Finish(st).Success? ==>
      var d := Finish(st).value;
      && |d.frames| == |d.payloads| >= 1
      && d.width != 0 && d.height != 0
      && d.frames[0].xOffset == 0 && d.frames[0].yOffset == 0
      && d.frames[0].width == d.width && d.frames[0].height == d.height
      && d.times == (if st.hasACTL then ToInt32(st.animation.numPlays) else 0)
      && (st.hasACTL ==> |d.frames| == st.animation.numFrames)
      && (!st.hasACTL ==> d.payloads == [st.images[0]])
      && (forall i :: 0 <= i < |d.frames| ==> 0 <= d.frames[i].delay <= 65535 * 1000)
      && (st.hasACTL ==> forall i :: 0 <= i < |d.frames| ==>
            d.frames[i].delay == DelayMs(st.frames[i].delayNum, st.frames[i].delayDen))
      && (d.width >= 0 && d.height >= 0 ==> forall i :: 0 <= i < |d.frames| ==>
            FM.FitsCanvas(d.frames[i], d.width, d.height) && d.frames[i].width > 0 && d.frames[i].height > 0)
  {
    FinishErrors(st);
    FinishFrames(st);
    if Finish(st).Success? && st.hasACTL {
      var d := Finish(st).value;
      assert d.frames[0] == AnimationFrame(st.frames[0]);
      if d.width >= 0 && d.height >= 0 {
        forall i | 0 <= i < |d.frames|
          ensures FM.FitsCanvas(d.frames[i], d.width, d.height) && d.frames[i].width > 0 && d.frames[i].height > 0
        {
          assert FrameAccepted(st.frames[i], st.header);
        }
      }
    }
  }

  /** A successfully decoded file: IHDR came first and once with a valid header, IEND came last,
      and the result has as many frames as payloads, at least one, the first covering the
      canvas, every frame inside the canvas. */
  lemma DecodeSound(data: seq<byte>, crc32: seq<byte> -> uint32)
    requires DecodeSpec(data, crc32).Success?
    ensures var st := Run(data, 0, Initial, crc32).value;
      && |st.chunks| > 0 && st.chunks[0] == "IHDR" && CountOf(st.chunks, "IHDR") == 1 && HeaderFault(st.header) == None
      && st.chunks[|st.chunks| - 1] == "IEND"
    ensures var st := Run(data, 0, Initial, crc32).value; var d := DecodeSpec(data, crc32).value;
      && d.width == ToInt32(st.header.width) && d.height == ToInt32(st.header.height)
      && (!st.hasACTL ==> d.payloads == [st.images[0]])
      && (st.hasACTL ==> |d.frames| == |st.frames| && forall i :: 0 <= i < |d.frames| ==>
            && d.payloads[i] == st.images[i + PayloadSkip(st)]
            && d.frames[i].xOffset == ToInt32(st.frames[i].xOffset) && d.frames[i].yOffset == ToInt32(st.frames[i].yOffset)
            && d.frames[i].width == ToInt32(st.frames[i].width) && d.frames[i].height == ToInt32(st.frames[i].height)
            && d.frames[i].dispose == DisposeModeOf(st.frames[i].disposeOp)
            && d.frames[i].blend == BlendModeOf(st.frames[i].blendOp))
    ensures var d := DecodeSpec(data, crc32).value;
      && |d.frames| == |d.payloads| >= 1
      && d.frames[0].xOffset == 0 && d.frames[0].yOffset == 0
      && d.frames[0].width == d.width && d.frames[0].height == d.height
      && (d.width >= 0 && d.height >= 0 ==> forall i :: 0 <= i < |d.frames| ==> FM.FitsCanvas(d.frames[i], d.width, d.height))
  {
    var st := InitialInv(data, crc32);
    RunPreservesInv(data, 0, st, crc32);
    FinishSound(Run(data, 0, st, crc32).value);
  }

  /** A chunk whose stored CRC differs from the CRC of its type and payload is rejected with an
      error naming its type and its file offset. */
  lemma CorruptChunkRejected(prefix: seq<byte>, tag: seq<byte>, payload: seq<byte>, stored: uint32,
                             suffix: seq<byte>, st: ScanState, crc32: seq<byte> -> uint32)
    requires |tag| == 4 && |payload| <= 0x7FFF_FFFB
    requires stored != crc32(tag + payload)
    ensures var data := prefix + Uint32Bytes(|payload|) + tag + payload + Uint32Bytes(stored) + suffix;
      Advance(data, |prefix|, st, crc32) == Failure(ChunkError(TypeOf(tag), SignatureLength + |prefix|, CrcMismatch))
  {
    ReadEncodedChunk(prefix, tag, payload, stored, suffix);
    assert TypeOf(tag + payload) == TypeOf(tag);
  }

  /** A chunk read with a matching CRC is applied at its file offset, and the loop then stands
      right after its CRC field. */
  lemma AdvanceOfRead(data: seq<byte>, pos: nat, st: ScanState, crc32: seq<byte> -> uint32, c: RawChunk)
    requires pos <= |data| && ReadChunk(data, pos) == Success(c) && c.storedCrc == crc32(c.buffer)
    ensures var applied := ApplyChunk(st, c.buffer, SignatureLength + pos);
      Advance(data, pos, st, crc32) ==
        if applied.Failure? then Failure(applied.error) else Success((pos + |c.buffer| + 8, applied.value))
  {
  }

  /** Where the loop goes next: past the length field, the `length + 4` bytes the code reads as
      type and payload, and the CRC, so 12 bytes beyond the payload. A length whose size
      `(int)(length + 4)` is negative never gets this far; one within 4 of 2^32 wraps to a
      buffer of at most 3 bytes. */
  lemma AdvancePosition(data: seq<byte>, pos: nat, st: ScanState, crc32: seq<byte> -> uint32)
    requires pos <= |data| && Advance(data, pos, st, crc32).Success?
    ensures pos + 4 <= |data|
    ensures var len := ReadUint32(data, pos).value;
      && !(0x7FFF_FFFC <= len <= 0xFFFF_FFFB)
      && (len <= 0x7FFF_FFFB ==> Advance(data, pos, st, crc32).value.0 == pos + len + 12)
      && (0xFFFF_FFFC <= len ==> Advance(data, pos, st, crc32).value.0 == pos + len + 12 - 0x1_0000_0000)
  {
    ReadChunkOutcome(data, pos);
    var c := ReadChunk(data, pos).value;
    AdvanceOfRead(data, pos, st, crc32, c);
  }

  /** A chunk as a writer produces it: a 4-byte type and a payload. */
  datatype Chunk = Chunk(tag: seq<byte>, payload: seq<byte>)

  /** The payload is small enough for the decoder to size it. */
  predicate Writable(c: Chunk)
  {
    |c.tag| == 4 && |c.payload| <= 0x7FFF_FFFB
  }

  /** A sequence of chunks written one after the other, each with its correct CRC. */
  function EncodeStream(cs: seq<Chunk>, crc32: seq<byte> -> uint32): (s: seq<byte>)
    requires forall i :: 0 <= i < |cs| ==> Writable(cs[i])
  {
    if cs == [] then []
    else
      assert Writable(cs[0]);
      EncodeChunk(cs[0].tag, cs[0].payload, crc32) + EncodeStream(cs[1..], crc32)
  }

  /** The reader finds the chunks `cs` one after the other from stream position `pos`, each with
      a matching CRC, each `|payload| + 12` bytes after the previous one. */
  ghost predicate StreamAt(data: seq<byte>, pos: nat, cs: seq<Chunk>, crc32: seq<byte> -> uint32)
    decreases |cs|
  {
    && pos <= |data|
    && (cs != [] ==>
          && Writable(cs[0])
          && ReadChunk(data, pos) == Success(RawChunk(cs[0].tag + cs[0].payload, crc32(cs[0].tag + cs[0].payload)))
          && StreamAt(data, pos + |cs[0].payload| + 12, cs[1..], crc32))
  }

  /** Written chunks are found where the writer put them. */
  lemma EncodedStreamAt(prefix: seq<byte>, cs: seq<Chunk>, suffix: seq<byte>, crc32: seq<byte> -> uint32)
    requires forall i :: 0 <= i < |cs| ==> Writable(cs[i])
    ensures StreamAt(prefix + EncodeStream(cs, crc32) + suffix, |prefix|, cs, crc32)
  {
    var data := prefix + EncodeStream(cs, crc32) + suffix;
    assert data[|prefix|..|prefix| + |EncodeStream(cs, crc32)|] == EncodeStream(cs, crc32);
    StreamInside(data, |prefix|, cs, crc32);
  }

  /** Wherever the bytes of written chunks sit inside the data, the reader finds those chunks. */
  lemma {:induction false} StreamInside(data: seq<byte>, pos: nat, cs: seq<Chunk>, crc32: seq<byte> -> uint32)
    requires forall i :: 0 <= i < |cs| ==> Writable(cs[i])
    requires pos + |EncodeStream(cs, crc32)| <= |data|
    requires data[pos..pos + |EncodeStream(cs, crc32)|] == EncodeStream(cs, crc32)
    ensures StreamAt(data, pos, cs, crc32)
    decreases |cs|
  {
    if cs != [] {
      var next := StreamHead(data, pos, cs, crc32);
      StreamInside(data, next, cs[1..], crc32);
      StreamAtCons(data, pos, cs, crc32, next);
    }
  }

  /** StreamAt from its first chunk and the rest of the stream. */
  lemma StreamAtCons(data: seq<byte>, pos: nat, cs: seq<Chunk>, crc32: seq<byte> -> uint32, next: nat)
    requires cs != [] && Writable(cs[0]) && pos <= |data| && next == pos + |cs[0].payload| + 12
    requires ReadChunk(data, pos) == Success(RawChunk(cs[0].tag + cs[0].payload, crc32(cs[0].tag + cs[0].payload)))
    requires StreamAt(data, next, cs[1..], crc32)
    ensures StreamAt(data, pos, cs, crc32)
  {
  }

  /** The first written chunk is found at `pos`, and the rest of the written bytes follow it. */
  lemma StreamHead(data: seq<byte>, pos: nat, cs: seq<Chunk>, crc32: seq<byte> -> uint32) returns (next: nat)
    requires cs != [] && forall i :: 0 <= i < |cs| ==> Writable(cs[i])
    requires pos + |EncodeStream(cs, crc32)| <= |data|
    requires data[pos..pos + |EncodeStream(cs, crc32)|] == EncodeStream(cs, crc32)
    ensures Writable(cs[0]) && next == pos + |cs[0].payload| + 12
    ensures ReadChunk(data, pos) == Success(RawChunk(cs[0].tag + cs[0].payload, crc32(cs[0].tag + cs[0].payload)))
    ensures forall i :: 0 <= i < |cs[1..]| ==> Writable(cs[1..][i])
    ensures next + |EncodeStream(cs[1..], crc32)| <= |data|
    ensures data[next..next + |EncodeStream(cs[1..], crc32)|] == EncodeStream(cs[1..], crc32)
  {
    var c := cs[0];
    assert Writable(c);
    var chunk := EncodeChunk(c.tag, c.payload, crc32);
    var rest := EncodeStream(cs[1..], crc32);
    next := pos + |c.payload| + 12;
    assert EncodeStream(cs, crc32) == chunk + rest;
    SliceSplit(data, pos, next, pos + |EncodeStream(cs, crc32)|, chunk, rest);
    ChunkInside(data, pos, c.tag, c.payload, crc32);
    assert pos + |EncodeStream(cs, crc32)| == next + |rest|;
  }

  /** Two consecutive pieces of a slice are slices themselves. */
  lemma SliceSplit(data: seq<byte>, i: nat, j: nat, k: nat, a: seq<byte>, b: seq<byte>)
    requires i + |a| == j && j + |b| == k && k <= |data| && data[i..k] == a + b
    ensures data[i..j] == a && data[j..k] == b
  {
    assert data[i..j] == (a + b)[..|a|];
    assert data[j..k] == (a + b)[|a|..];
  }

  /** Wherever the bytes of a written chunk sit inside the data, the reader finds that chunk. */
  lemma ChunkInside(data: seq<byte>, pos: nat, tag: seq<byte>, payload: seq<byte>, crc32: seq<byte> -> uint32)
    requires |tag| == 4 && |payload| <= 0x7FFF_FFFB && pos + |payload| + 12 <= |data|
    requires data[pos..pos + |payload| + 12] == EncodeChunk(tag, payload, crc32)
    ensures ReadChunk(data, pos) == Success(RawChunk(tag + payload, crc32(tag + payload)))
  {
    var prefix := data[..pos];
    var suffix := data[pos + |payload| + 12..];
    var stored := crc32(tag + payload);
    assert data == prefix + data[pos..pos + |payload| + 12] + suffix;
    assert data == prefix + Uint32Bytes(|payload|) + tag + payload + Uint32Bytes(stored) + suffix;
    ReadEncodedChunk(prefix, tag, payload, stored, suffix);
  }

  /** A per-chunk step of the loop: state, type-and-payload buffer and file offset to the new
      state. `ApplyChunk` is the decoder's. */
  type ChunkStep = (ScanState, seq<byte>, nat) -> Result<ScanState, DecodeError>

  /** `Run` with the per-chunk step `apply` in place of `ApplyChunk`. */
  function RunWith(apply: ChunkStep, data: seq<byte>, pos: nat, st: ScanState, crc32: seq<byte> -> uint32)
    : Result<ScanState, DecodeError>
    requires pos <= |data|
    decreases |data| - pos
  {
    if st.hasIEND then Success(st)
    else
      var c :- ReadChunk(data, pos);
      if c.storedCrc != crc32(c.buffer) then Failure(ChunkError(TypeOf(c.buffer), SignatureLength + pos, CrcMismatch))
      else
        var next :- apply(st, c.buffer, SignatureLength + pos);
        RunWith(apply, data, pos + |c.buffer| + 8, next, crc32)
  }

  /** The loop is `RunWith` the decoder's own step. */
  lemma {:induction false} RunIsRunWith(data: seq<byte>, pos: nat, st: ScanState, crc32: seq<byte> -> uint32)
    requires pos <= |data|
    ensures Run(data, pos, st, crc32) == RunWith(ApplyChunk, data, pos, st, crc32)
    decreases |data| - pos
  {
    if !st.hasIEND {
      RunWithStep(data, pos, st, crc32);
      var step := Advance(data, pos, st, crc32);
      if step.Success? {
        RunIsRunWith(data, step.value.0, step.value.1, crc32);
      }
    }
  }

  /** One iteration of `RunWith` the decoder's own step is `Advance`. */
  lemma RunWithStep(data: seq<byte>, pos: nat, st: ScanState, crc32: seq<byte> -> uint32)
    requires pos <= |data| && !st.hasIEND
    ensures var step := Advance(data, pos, st, crc32);
      RunWith(ApplyChunk, data, pos, st, crc32) ==
        if step.Failure? then Failure(step.error) else RunWith(ApplyChunk, data, step.value.0, step.value.1, crc32)
  {
    var r := ReadChunk(data, pos);
    if r.Success? && r.value.storedCrc == crc32(r.value.buffer) {
      AdvanceOfRead(data, pos, st, crc32, r.value);
    }
  }

  /** The decoder's view of a chunk list: each chunk is applied at its file offset, which grows
      by the payload length plus 12 per chunk, until IEND or the end of the list. */
  function Replay(apply: ChunkStep, cs: seq<Chunk>, st: ScanState, offset: nat): Result<ScanState, DecodeError>
  {
    if st.hasIEND || cs == [] then Success(st)
    else
      var next :- apply(st, cs[0].tag + cs[0].payload, offset);
      Replay(apply, cs[1..], next, offset + |cs[0].payload| + 12)
  }

  /** Over a stream of chunks the loop computes the replay of those chunks, starting at the file
      offset `8 + pos`, as long as the replay fails or reaches IEND. */
  lemma RunOverStream(data: seq<byte>, pos: nat, cs: seq<Chunk>, st: ScanState, crc32: seq<byte> -> uint32)
    requires StreamAt(data, pos, cs, crc32)
    requires var r := Replay(ApplyChunk, cs, st, SignatureLength + pos); r.Failure? || r.value.hasIEND
    ensures Run(data, pos, st, crc32) == Replay(ApplyChunk, cs, st, SignatureLength + pos)
  {
    RunIsRunWith(data, pos, st, crc32);
    RunWithOverStream(ApplyChunk, data, pos, cs, st, crc32);
  }

  /** `RunOverStream` for any per-chunk step. */
  lemma {:induction false} RunWithOverStream(apply: ChunkStep, data: seq<byte>, pos: nat, cs: seq<Chunk>,
                                             st: ScanState, crc32: seq<byte> -> uint32)
    requires StreamAt(data, pos, cs, crc32)
    requires var r := Replay(apply, cs, st, SignatureLength + pos); r.Failure? || r.value.hasIEND
    ensures RunWith(apply, data, pos, st, crc32) == Replay(apply, cs, st, SignatureLength + pos)
    decreases |cs|
  {
    if !st.hasIEND {
      assert cs != [];
      var applied, next := StreamStep(apply, data, pos, cs, st, crc32);
      if applied.Success? {
        RunWithOverStream(apply, data, next, cs[1..], applied.value, crc32);
      }
    }
  }

  /** The loop and the replay take the same first step over a stream of chunks. */
  lemma StreamStep(apply: ChunkStep, data: seq<byte>, pos: nat, cs: seq<Chunk>, st: ScanState,
                   crc32: seq<byte> -> uint32)
    returns (applied: Result<ScanState, DecodeError>, next: nat)
    requires StreamAt(data, pos, cs, crc32) && cs != [] && !st.hasIEND
    ensures next == pos + |cs[0].payload| + 12
    ensures applied.Failure? ==>
      && RunWith(apply, data, pos, st, crc32) == Failure(applied.error)
      && Replay(apply, cs, st, SignatureLength + pos) == Failure(applied.error)
    ensures applied.Success? ==>
      && next <= |data|
      && RunWith(apply, data, pos, st, crc32) == RunWith(apply, data, next, applied.value, crc32)
      && Replay(apply, cs, st, SignatureLength + pos) == Replay(apply, cs[1..], applied.value, SignatureLength + next)
      && StreamAt(data, next, cs[1..], crc32)
  {
    var c := cs[0];
    next := pos + |c.payload| + 12;
    assert |c.tag + c.payload| == |c.payload| + 4;
    applied := apply(st, c.tag + c.payload, SignatureLength + pos);
  }

  /** The fcTL bound check as the C# evaluates it: `XOffset + Width` and `YOffset + Height` are
      `uint` sums, which wrap around modulo 2^32. */
  predicate FrameInsideCanvasAsWritten(f: FrameControl, h: ImageHeader)
  {
    (f.xOffset + f.width) % 0x1_0000_0000 <= h.width && (f.yOffset + f.height) % 0x1_0000_0000 <= h.height
  }

  /** Without wrap-around the check as written is the intended one; with it, a frame that starts
      at column 0xFFFF_FFFF of a 10 x 10 canvas passes. */
  lemma FrameBoundWraps()
    ensures forall f: FrameControl, h: ImageHeader ::
      f.xOffset + f.width < 0x1_0000_0000 && f.yOffset + f.height < 0x1_0000_0000 ==>
      (FrameInsideCanvasAsWritten(f, h) <==> FrameInsideCanvas(f, h))
    ensures var f := FrameControl(1, 2, 1, 0xFFFF_FFFF, 0, 0, 0, 0, 0);
            var h := ImageHeader(10, 10, 8, 6, 0, 0, 0);
            FrameInsideCanvasAsWritten(f, h) && !FrameInsideCanvas(f, h)
  {
    var f := FrameControl(1, 2, 1, 0xFFFF_FFFF, 0, 0, 0, 0, 0);
    assert (f.xOffset + f.width) % 0x1_0000_0000 == 1;
  }

  /** The fdAT case as the C# evaluates it: every fdAT needs an open fcTL, even one that directly
      follows another fdAT. */
  function AcceptFrameDataAsWritten(st: ScanState, t: string, buffer: seq<byte>, offset: nat)
    : Result<ScanState, DecodeError>
  {
    if !st.isFCTL then Failure(ChunkError(t, offset, NoFrameControl))
    else if |buffer| < 8 then Failure(ShortRead)
    else if ReadUint32(buffer, 4).value != st.sequence then Failure(ChunkError(t, offset, BadSequenceNumber))
    else
      var fdat := buffer[8..];
      var images :-
        if |st.chunks| == 0 then Failure(IndexOutOfRange)
        else if st.chunks[|st.chunks| - 1] != t then Success(st.images + [fdat])
        else if |st.images| == 0 then Failure(IndexOutOfRange)
        else Success(AppendToLast(st.images, fdat));
      Success(st.(images := images, sequence := st.sequence + 1, isFCTL := false))
  }

  /** While an fcTL is open the fdAT check as written is the corrected one. But an accepted fdAT
      closes the fcTL, so as written the next fdAT of the same frame is rejected, and the
      concatenation branch can never run; the corrected step accepts that fdAT and joins the two
      payloads. */
  lemma FrameDataSplitRejected(st: ScanState, b1: seq<byte>, o1: nat, b2: seq<byte>, o2: nat)
    ensures st.isFCTL ==> AcceptFrameDataAsWritten(st, "fdAT", b1, o1) == AcceptFrameData(st, "fdAT", b1, o1)
    ensures AcceptFrameDataAsWritten(st, "fdAT", b1, o1).Success? ==>
      var s1 := AcceptFrameDataAsWritten(st, "fdAT", b1, o1).value.(chunks := st.chunks + ["fdAT"]);
      && AcceptFrameDataAsWritten(s1, "fdAT", b2, o2) == Failure(ChunkError("fdAT", o2, NoFrameControl))
      && (|b2| >= 8 && ReadUint32(b2, 4).value == st.sequence + 1 ==>
            && AcceptFrameData(s1, "fdAT", b2, o2).Success?
            && AcceptFrameData(s1, "fdAT", b2, o2).value.images ==
                 s1.images[..|s1.images| - 1] + [s1.images[|s1.images| - 1] + b2[8..]])
  {
  }
}
