/**
 * The PNG constant tables of ImageLoader/Models/Constants/PNG.cs: the header, animation-control
 * and frame-control records, the enumerations (stored as their raw byte codes, as the C# enums
 * backed by `byte` are), and the table of bit depths allowed per colour type.
 */
module PngConstants {
  import opened Wrappers
  import opened ByteOrder
  import Arith

  /** The `IHDR` record. Enumerated fields keep the raw code read from the file. */
  datatype ImageHeader = ImageHeader(
    width: uint32, height: uint32, bitDepth: byte, colorType: byte,
    compressionMethod: byte, filterMethod: byte, interlaceMethod: byte)

  /** A fresh `IHDR` struct: every field zero. */
  const DefaultHeader := ImageHeader(0, 0, 0, 0, 0, 0, 0)

  /** The `acTL` record. `numPlays == 0` means loop forever. */
  datatype AnimationControl = AnimationControl(numFrames: uint32, numPlays: uint32)

  const DefaultAnimation := AnimationControl(0, 0)

  /** The `fcTL` record. */
  datatype FrameControl = FrameControl(
    sequenceNumber: uint32, width: uint32, height: uint32, xOffset: uint32, yOffset: uint32,
    delayNum: uint16, delayDen: uint16, disposeOp: byte, blendOp: byte)

  datatype ColorType = Grayscale | RGB | Palette | GrayscaleAlpha | RGBAlpha

  function ColorTypeCode(t: ColorType): byte
  {
    match t
    case Grayscale => 0
    case RGB => 2
    case Palette => 3
    case GrayscaleAlpha => 4
    case RGBAlpha => 6
  }

  /** `Enum.IsDefined(typeof(ColorType), code)` followed by the cast. */
  function ColorTypeOf(code: byte): (r: Option<ColorType>)
    ensures r.Some? <==> code in {0, 2, 3, 4, 6}
    ensures r.Some? ==> ColorTypeCode(r.value) == code
    ensures forall t :: ColorTypeCode(t) == code ==> r == Some(t)
  {
    match code
    case 0 => Some(Grayscale)
    case 2 => Some(RGB)
    case 3 => Some(Palette)
    case 4 => Some(GrayscaleAlpha)
    case 6 => Some(RGBAlpha)
    case _ => None
  }

  /** `AllowBitDepth`: the bit depths allowed for each colour type. */
  const AllowBitDepth: map<ColorType, seq<byte>> := map[
    Grayscale := [1, 2, 4, 8, 16],
    RGB := [8, 16],
    Palette := [1, 2, 4, 8],
    GrayscaleAlpha := [8, 16],
    RGBAlpha := [8, 16]]

  /** The IHDR colour/depth test: the code is a defined colour type, the table has a row for it,
      and the row contains the depth. */
  predicate BitDepthAllowed(colorCode: byte, bitDepth: byte)
  {
    match ColorTypeOf(colorCode)
    case None => false
    case Some(t) => t in AllowBitDepth && bitDepth in AllowBitDepth[t]
  }

  /** The table, written out as one condition per colour type. */
  lemma BitDepthTable(colorCode: byte, bitDepth: byte)
    ensures BitDepthAllowed(colorCode, bitDepth) <==>
      || (colorCode == 0 && bitDepth in {1, 2, 4, 8, 16})
      || (colorCode == 2 && bitDepth in {8, 16})
      || (colorCode == 3 && bitDepth in {1, 2, 4, 8})
      || (colorCode == 4 && bitDepth in {8, 16})
      || (colorCode == 6 && bitDepth in {8, 16})
  {
  }

  /** Every defined colour type has a row, so the codes with no allowed depth are exactly 1, 5 and 7 and above. */
  lemma NoDepthCodes(colorCode: byte)
    ensures (forall d: byte :: !BitDepthAllowed(colorCode, d)) <==> (colorCode == 1 || colorCode == 5 || colorCode >= 7)
  {
    if colorCode in {0, 2, 3, 4, 6} {
      assert BitDepthAllowed(colorCode, 8);
    }
  }

  /** Depth 8 is allowed for every colour type, and depth 16 for every one except Palette. */
  lemma CommonDepths(t: ColorType)
    ensures BitDepthAllowed(ColorTypeCode(t), 8)
    ensures BitDepthAllowed(ColorTypeCode(t), 16) <==> t != Palette
  {
  }

  /** `InterlaceMethod`: NoInterlace = 0, Adam7Interlace = 1. */
  const NoInterlace: byte := 0
  const Adam7Interlace: byte := 1

  /** `Enum.IsDefined(typeof(InterlaceMethod), code)`. */
  predicate InterlaceDefined(code: byte)
  {
    code == NoInterlace || code == Adam7Interlace
  }

  /** `DisposeOp`: APNG_DISPOSE_OP_NONE = 0, APNG_DISPOSE_OP_BACKGROUND = 1, APNG_DISPOSE_OP_PREVIOUS = 2. */
  const DisposeOpNone: byte := 0
  const DisposeOpBackground: byte := 1
  const DisposeOpPrevious: byte := 2

  /** `Enum.IsDefined(typeof(DisposeOp), code)`. */
  predicate DisposeDefined(code: byte)
  {
    code == DisposeOpNone || code == DisposeOpBackground || code == DisposeOpPrevious
  }

  /** `BlendOp`: APNG_BLEND_OP_SOURCE = 0, APNG_BLEND_OP_OVER = 1. */
  const BlendOpSource: byte := 0
  const BlendOpOver: byte := 1

  /** `Enum.IsDefined(typeof(BlendOp), code)`. */
  predicate BlendDefined(code: byte)
  {
    code == BlendOpSource || code == BlendOpOver
  }

  /** `FilterType`: None = 0, Sub = 1, Up = 2, Average = 3, Paeth = 4. */
  const FilterNone: byte := 0
  const FilterSub: byte := 1
  const FilterUp: byte := 2
  const FilterAverage: byte := 3
  const FilterPaeth: byte := 4

  /** A scanline filter byte names one of the five filter types. */
  predicate FilterDefined(code: byte)
  {
    code in {FilterNone, FilterSub, FilterUp, FilterAverage, FilterPaeth}
  }

  /** The enumerations' defined codes, as sets. */
  lemma DefinedCodes(code: byte)
    ensures InterlaceDefined(code) <==> code in {0, 1}
    ensures DisposeDefined(code) <==> code in {0, 1, 2}
    ensures BlendDefined(code) <==> code in {0, 1}
    ensures FilterDefined(code) <==> code <= 4
  {
  }

  /** `DelayNum * 1000 / DelayDen` in milliseconds, for a normalised (non-zero) denominator. */
  function DelayMs(delayNum: uint16, delayDen: uint16): (ms: nat)
    requires delayDen != 0
    ensures ms <= 65535 * 1000 < 0x8000_0000
    ensures ms * delayDen <= delayNum * 1000 < (ms + 1) * delayDen
  {
    Arith.DivMod(delayNum * 1000 / delayDen, delayNum * 1000 % delayDen, delayDen);
    Arith.MulLe(1, delayDen, delayNum * 1000 / delayDen);
    delayNum * 1000 / delayDen
  }
}
