/** The frame record the compositor reads (ImageLoader/Models/FrameModel.cs). */
module FrameModels {
  import opened ByteOrder

  /** How the canvas buffers are prepared before the frame is drawn. */
  datatype DisposeMode = None | Background | Previous

  /** How the frame's pixels are written onto the canvas. */
  datatype BlendMode = Normal | AlphaBlending

  /** One decoded frame: its rectangle on the canvas, its display time in milliseconds,
      its dispose and blend modes and its pixels (B, G, R, A bytes, row-major). */
  datatype FrameModel = FrameModel(
    xOffset: int, yOffset: int, width: int, height: int, delay: int,
    dispose: DisposeMode, blend: BlendMode, data: seq<byte>)

  /** The frame's rectangle lies inside a `canvasWidth` x `canvasHeight` canvas. */
  predicate FitsCanvas(f: FrameModel, canvasWidth: nat, canvasHeight: nat)
  {
    && 0 <= f.xOffset && 0 <= f.yOffset && 0 <= f.width && 0 <= f.height
    && f.xOffset + f.width <= canvasWidth && f.yOffset + f.height <= canvasHeight
  }

  /** The frame fits the canvas and its data holds one 4-byte pixel per position of its
      rectangle. */
  predicate Drawable(f: FrameModel, canvasWidth: nat, canvasHeight: nat)
  {
    FitsCanvas(f, canvasWidth, canvasHeight) && f.height * f.width * 4 <= |f.data|
  }
}
