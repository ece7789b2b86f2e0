/**
 * The playback loop of ImageLoader/Exts/Animation.cs (`Play`): two BGRA canvases of
 * `height * width * 4` bytes, the output buffer shown on screen and the buffer holding the previous
 * output, a frame index and a count of completed passes. Each pass of the loop first prepares the
 * buffers as the frame's dispose mode says, then draws the frame's rectangle onto the output buffer,
 * then moves to the next frame, wrapping around and counting a completed pass.
 */
module Animation {
  import opened ByteOrder
  import opened FrameModels
  import opened Grid
  import Arith

  /** The alpha-blend of one colour channel: frame byte, canvas byte and frame alpha to the new
      canvas byte. It stands for the floating-point expression of the source. */
  type Mix = (byte, byte, byte) -> byte

  // ---------------------------------------------------------------- drawing one frame

  /** Pixel (`px`, `py`) of the canvas lies in the frame's rectangle. */
  predicate Inside(f: FrameModel, py: nat, px: nat)
  {
    f.xOffset <= px < f.xOffset + f.width && f.yOffset <= py < f.yOffset + f.height
  }

  /** Channel `c` of the frame's pixel (`fx`, `fy`) drawn over the canvas byte `under`: copied for
      `Normal`, blended for `AlphaBlending`, whose alpha channel becomes 255. */
  function Painted(f: FrameModel, mix: Mix, under: byte, fy: nat, fx: nat, c: nat): byte
    requires f.height * f.width * 4 <= |f.data| && fy < f.height && fx < f.width && c < 4
  {
    IdxBound(f.width, f.height, fy, fx, 3);
    var s := Idx(f.width, fy, fx, 0);
    if f.blend == Normal then f.data[s + c]
    else if c == 3 then 255
    else mix(f.data[s + c], under, f.data[s + 3])
  }

  /** The four channels of an `AlphaBlending` pixel over the canvas bytes `u0` to `u3`: the colours
      blended by the pixel's alpha, the alpha itself 255. */
  lemma BlendedChannels(f: FrameModel, mix: Mix, u0: byte, u1: byte, u2: byte, u3: byte, y: nat, x: nat)
    requires f.height * f.width * 4 <= |f.data| && y < f.height && x < f.width && f.blend == AlphaBlending
    ensures Idx(f.width, y, x, 3) < |f.data|
    ensures Painted(f, mix, u0, y, x, 0) == mix(f.data[Idx(f.width, y, x, 0)], u0, f.data[Idx(f.width, y, x, 3)])
    ensures Painted(f, mix, u1, y, x, 1) == mix(f.data[Idx(f.width, y, x, 1)], u1, f.data[Idx(f.width, y, x, 3)])
    ensures Painted(f, mix, u2, y, x, 2) == mix(f.data[Idx(f.width, y, x, 2)], u2, f.data[Idx(f.width, y, x, 3)])
    ensures Painted(f, mix, u3, y, x, 3) == 255
  {
    IdxBound(f.width, f.height, y, x, 3);
  }

  /** Channel `c` of canvas pixel (`px`, `py`) once the first `m` bytes of the frame's data
      (row-major, four per pixel) are drawn over `before`. */
  function Composite(before: seq<byte>, f: FrameModel, width: nat, height: nat, mix: Mix, m: nat,
                     py: nat, px: nat, c: nat): byte
    requires |before| == height * width * 4 && Drawable(f, width, height)
    requires py < height && px < width && c < 4
  {
    IdxBound(width, height, py, px, c);
    var under := before[Idx(width, py, px, c)];
    if Inside(f, py, px) && Idx(f.width, py - f.yOffset, px - f.xOffset, c) < m then
      Painted(f, mix, under, py - f.yOffset, px - f.xOffset, c)
    else under
  }

  /** Canvas byte `i` once the first `m` frame bytes are drawn over `before`. */
  function CompositeAt(before: seq<byte>, f: FrameModel, width: nat, height: nat, mix: Mix, m: nat, i: nat): byte
    requires |before| == height * width * 4 && Drawable(f, width, height) && i < |before|
  {
    FlatIdx(width, height, i);
    Composite(before, f, width, height, mix, m, i / 4 / width, i / 4 % width, i % 4)
  }

  /** The canvas `before` with the whole frame drawn on it. */
  function Drawn(before: seq<byte>, f: FrameModel, width: nat, height: nat, mix: Mix): (after: seq<byte>)
    requires |before| == height * width * 4 && Drawable(f, width, height)
    ensures |after| == |before|
  {
    seq(|before|, i requires 0 <= i < |before| => CompositeAt(before, f, width, height, mix, f.height * f.width * 4, i))
  }

  /** Every byte of `a` holds its value once `m` frame bytes are drawn over `before`. */
  ghost predicate Painting(a: seq<byte>, before: seq<byte>, f: FrameModel, width: nat, height: nat, mix: Mix, m: nat)
    requires |before| == height * width * 4 && Drawable(f, width, height)
  {
    && |a| == |before|
    && forall i :: 0 <= i < |a| ==> a[i] == CompositeAt(before, f, width, height, mix, m, i)
  }

  /** Nothing drawn yet: the canvas is `before`. */
  lemma PaintingStart(before: seq<byte>, f: FrameModel, width: nat, height: nat, mix: Mix)
    requires |before| == height * width * 4 && Drawable(f, width, height)
    ensures Painting(before, before, f, width, height, mix, 0)
  {
    forall i | 0 <= i < |before|
      ensures before[i] == CompositeAt(before, f, width, height, mix, 0, i)
    {
      FlatIdx(width, height, i);
    }
  }

  /** Drawing frame byte `m`, channel `c` of frame pixel (`x`, `y`), at its canvas position. */
  lemma PaintStep(a: seq<byte>, before: seq<byte>, f: FrameModel, width: nat, height: nat, mix: Mix,
                  y: nat, x: nat, c: nat, v: byte)
    requires |before| == height * width * 4 && Drawable(f, width, height)
    requires y < f.height && x < f.width && c < 4
    requires Painting(a, before, f, width, height, mix, Idx(f.width, y, x, c))
    requires Idx(width, y + f.yOffset, x + f.xOffset, c) < |before|
    requires v == Painted(f, mix, before[Idx(width, y + f.yOffset, x + f.xOffset, c)], y, x, c)
    ensures Painting(a[Idx(width, y + f.yOffset, x + f.xOffset, c) := v], before, f, width, height, mix,
                     Idx(f.width, y, x, c) + 1)
  {
    var u := Idx(width, y + f.yOffset, x + f.xOffset, c);
    var after := a[u := v];
    forall i | 0 <= i < |after|
      ensures after[i] == CompositeAt(before, f, width, height, mix, Idx(f.width, y, x, c) + 1, i)
    {
      PaintStepAt(a, before, f, width, height, mix, y, x, c, v, i);
    }
  }

  /** `PaintStep` at canvas index `i`. */
  lemma PaintStepAt(a: seq<byte>, before: seq<byte>, f: FrameModel, width: nat, height: nat, mix: Mix,
                    y: nat, x: nat, c: nat, v: byte, i: nat)
    requires |before| == height * width * 4 && Drawable(f, width, height)
    requires y < f.height && x < f.width && c < 4 && i < |a| == |before|
    requires a[i] == CompositeAt(before, f, width, height, mix, Idx(f.width, y, x, c), i)
    requires Idx(width, y + f.yOffset, x + f.xOffset, c) < |before|
    requires v == Painted(f, mix, before[Idx(width, y + f.yOffset, x + f.xOffset, c)], y, x, c)
    ensures a[Idx(width, y + f.yOffset, x + f.xOffset, c) := v][i] ==
            CompositeAt(before, f, width, height, mix, Idx(f.width, y, x, c) + 1, i)
  {
    CompositeAtStep(before, f, width, height, mix, y, x, c, i);
  }

  /** `CompositeStep` at canvas index `i`. */
  lemma CompositeAtStep(before: seq<byte>, f: FrameModel, width: nat, height: nat, mix: Mix,
                        y: nat, x: nat, c: nat, i: nat)
    requires |before| == height * width * 4 && Drawable(f, width, height)
    requires y < f.height && x < f.width && c < 4 && i < |before|
    ensures Idx(width, y + f.yOffset, x + f.xOffset, c) < |before|
    ensures CompositeAt(before, f, width, height, mix, Idx(f.width, y, x, c) + 1, i) ==
            if i == Idx(width, y + f.yOffset, x + f.xOffset, c)
            then Painted(f, mix, before[Idx(width, y + f.yOffset, x + f.xOffset, c)], y, x, c)
            else CompositeAt(before, f, width, height, mix, Idx(f.width, y, x, c), i)
  {
    FlatIdx(width, height, i);
    CompositeStep(before, f, width, height, mix, y, x, c, i / 4 / width, i / 4 % width, i % 4);
  }

  /** Drawing channel `c` of frame pixel (`x`, `y`) changes channel `k` of canvas pixel (`px`, `py`)
      only when that is where it is drawn, and then to the painted value. */
  lemma CompositeStep(before: seq<byte>, f: FrameModel, width: nat, height: nat, mix: Mix,
                      y: nat, x: nat, c: nat, py: nat, px: nat, k: nat)
    requires |before| == height * width * 4 && Drawable(f, width, height)
    requires y < f.height && x < f.width && c < 4 && py < height && px < width && k < 4
    ensures Idx(width, y + f.yOffset, x + f.xOffset, c) < |before|
    ensures Composite(before, f, width, height, mix, Idx(f.width, y, x, c) + 1, py, px, k) ==
            if Idx(width, py, px, k) == Idx(width, y + f.yOffset, x + f.xOffset, c)
            then Painted(f, mix, before[Idx(width, y + f.yOffset, x + f.xOffset, c)], y, x, c)
            else Composite(before, f, width, height, mix, Idx(f.width, y, x, c), py, px, k)
  {
    IdxBound(width, height, y + f.yOffset, x + f.xOffset, c);
    SamePosition(f, width, height, y, x, c, Idx(width, py, px, k), py, px, k);
  }

  /** Canvas byte `i`, channel `k` of pixel (`px`, `py`), is channel `c` of frame pixel (`x`, `y`)
      exactly when the pixel lies inside the frame and its frame byte is that channel's. */
  lemma SamePosition(f: FrameModel, width: nat, height: nat, y: nat, x: nat, c: nat, i: nat, py: nat, px: nat, k: nat)
    requires Drawable(f, width, height) && y < f.height && x < f.width && c < 4
    requires py < height && px < width && k < 4 && i == Idx(width, py, px, k)
    ensures i == Idx(width, y + f.yOffset, x + f.xOffset, c) <==>
            Inside(f, py, px) && Idx(f.width, py - f.yOffset, px - f.xOffset, k) == Idx(f.width, y, x, c)
    ensures i == Idx(width, y + f.yOffset, x + f.xOffset, c) ==>
            py - f.yOffset == y && px - f.xOffset == x && k == c
  {
    IdxInjective(width, height, py, px, k, y + f.yOffset, x + f.xOffset, c);
    if Inside(f, py, px) {
      IdxInjective(f.width, f.height, py - f.yOffset, px - f.xOffset, k, y, x, c);
    }
  }

  /** A canvas byte whose frame byte is not drawn yet still holds its value in `before`. */
  lemma Unpainted(a: seq<byte>, before: seq<byte>, f: FrameModel, width: nat, height: nat, mix: Mix,
                  m: nat, y: nat, x: nat, c: nat)
    requires |before| == height * width * 4 && Drawable(f, width, height)
    requires y < f.height && x < f.width && c < 4
    requires Painting(a, before, f, width, height, mix, m) && m <= Idx(f.width, y, x, c)
    ensures Idx(width, y + f.yOffset, x + f.xOffset, c) < |a|
    ensures a[Idx(width, y + f.yOffset, x + f.xOffset, c)] == before[Idx(width, y + f.yOffset, x + f.xOffset, c)]
  {
    FlatPositionOf(width, height, y + f.yOffset, x + f.xOffset, c);
    assert a[Idx(width, y + f.yOffset, x + f.xOffset, c)] ==
      CompositeAt(before, f, width, height, mix, m, Idx(width, y + f.yOffset, x + f.xOffset, c));
  }

  /** Before pixel (`x`, `y`) of the frame is drawn, its colour channels on the canvas still hold
      their values in `before`. */
  lemma UnpaintedPixel(a: seq<byte>, before: seq<byte>, f: FrameModel, width: nat, height: nat, mix: Mix, y: nat, x: nat)
    requires |before| == height * width * 4 && Drawable(f, width, height)
    requires y < f.height && x < f.width
    requires Painting(a, before, f, width, height, mix, Idx(f.width, y, x, 0))
    ensures Idx(width, y + f.yOffset, x + f.xOffset, 3) < |a|
    ensures a[Idx(width, y + f.yOffset, x + f.xOffset, 0)] == before[Idx(width, y + f.yOffset, x + f.xOffset, 0)]
    ensures a[Idx(width, y + f.yOffset, x + f.xOffset, 1)] == before[Idx(width, y + f.yOffset, x + f.xOffset, 1)]
    ensures a[Idx(width, y + f.yOffset, x + f.xOffset, 2)] == before[Idx(width, y + f.yOffset, x + f.xOffset, 2)]
  {
    IdxBound(width, height, y + f.yOffset, x + f.xOffset, 3);
    Unpainted(a, before, f, width, height, mix, Idx(f.width, y, x, 0), y, x, 0);
    Unpainted(a, before, f, width, height, mix, Idx(f.width, y, x, 0), y, x, 1);
    Unpainted(a, before, f, width, height, mix, Idx(f.width, y, x, 0), y, x, 2);
  }

  /** Once every frame byte is drawn, the canvas is `Drawn(before)`. */
  lemma PaintingComplete(a: seq<byte>, before: seq<byte>, f: FrameModel, width: nat, height: nat, mix: Mix)
    requires |before| == height * width * 4 && Drawable(f, width, height)
    requires Painting(a, before, f, width, height, mix, f.height * f.width * 4)
    ensures a == Drawn(before, f, width, height, mix)
  {
    var d := Drawn(before, f, width, height, mix);
    assert forall i :: 0 <= i < |a| ==> a[i] == d[i];
  }

  /** Channel `c` of canvas pixel (`px`, `py`) after drawing the whole frame. */
  lemma DrawnAt(before: seq<byte>, f: FrameModel, width: nat, height: nat, mix: Mix, py: nat, px: nat, c: nat)
    requires |before| == height * width * 4 && Drawable(f, width, height)
    requires py < height && px < width && c < 4
    ensures Idx(width, py, px, c) < |before|
    ensures Drawn(before, f, width, height, mix)[Idx(width, py, px, c)] ==
            Composite(before, f, width, height, mix, f.height * f.width * 4, py, px, c)
  {
    FlatPositionOf(width, height, py, px, c);
  }

  /** Drawing a frame leaves every canvas pixel outside its rectangle as it was. */
  lemma DrawnOutside(before: seq<byte>, f: FrameModel, width: nat, height: nat, mix: Mix, py: nat, px: nat, c: nat)
    requires |before| == height * width * 4 && Drawable(f, width, height)
    requires py < height && px < width && c < 4 && !Inside(f, py, px)
    ensures Idx(width, py, px, c) < |before|
    ensures Drawn(before, f, width, height, mix)[Idx(width, py, px, c)] == before[Idx(width, py, px, c)]
  {
    DrawnAt(before, f, width, height, mix, py, px, c);
  }

  /** Inside the rectangle a `Normal` frame replaces the canvas with its own pixels; an
      `AlphaBlending` frame blends the colour channels and makes the pixel opaque. */
  lemma DrawnInside(before: seq<byte>, f: FrameModel, width: nat, height: nat, mix: Mix, py: nat, px: nat, c: nat)
    requires |before| == height * width * 4 && Drawable(f, width, height)
    requires py < height && px < width && c < 4 && Inside(f, py, px)
    ensures Idx(width, py, px, c) < |before|
    ensures Idx(f.width, py - f.yOffset, px - f.xOffset, 3) < |f.data|
    ensures var after := Drawn(before, f, width, height, mix)[Idx(width, py, px, c)];
            var s := Idx(f.width, py - f.yOffset, px - f.xOffset, c);
            if f.blend == Normal then after == f.data[s]
            else if c == 3 then after == 255
            else after == mix(f.data[s], before[Idx(width, py, px, c)], f.data[s - c + 3])
  {
    DrawnAt(before, f, width, height, mix, py, px, c);
    IdxBound(f.width, f.height, py - f.yOffset, px - f.xOffset, c);
    IdxBound(f.width, f.height, py - f.yOffset, px - f.xOffset, 3);
  }

  /** Drawing the same `Normal` frame twice gives what drawing it once gives. */
  lemma DrawnTwice(before: seq<byte>, f: FrameModel, width: nat, height: nat, mix: Mix)
    requires |before| == height * width * 4 && Drawable(f, width, height) && f.blend == Normal
    ensures Drawn(Drawn(before, f, width, height, mix), f, width, height, mix) == Drawn(before, f, width, height, mix)
  {
    var once := Drawn(before, f, width, height, mix);
    var twice := Drawn(once, f, width, height, mix);
    forall i | 0 <= i < |before|
      ensures twice[i] == once[i]
    {
      FlatIdx(width, height, i);
    }
  }

  /** A `Normal` frame covering the whole canvas hides everything drawn before it. */
  lemma DrawnCovers(before: seq<byte>, other: seq<byte>, f: FrameModel, width: nat, height: nat, mix: Mix)
    requires |before| == |other| == height * width * 4 && Drawable(f, width, height) && f.blend == Normal
    requires f.xOffset == 0 && f.yOffset == 0 && f.width == width && f.height == height
    ensures Drawn(before, f, width, height, mix) == Drawn(other, f, width, height, mix)
  {
    var a := Drawn(before, f, width, height, mix);
    var b := Drawn(other, f, width, height, mix);
    forall i | 0 <= i < |before|
      ensures a[i] == b[i]
    {
      CoveredAtIndex(before, other, f, width, height, mix, i);
    }
  }

  /** `DrawnCovers` at canvas index `i`. */
  lemma CoveredAtIndex(before: seq<byte>, other: seq<byte>, f: FrameModel, width: nat, height: nat, mix: Mix, i: nat)
    requires |before| == |other| == height * width * 4 && Drawable(f, width, height) && f.blend == Normal
    requires f.xOffset == 0 && f.yOffset == 0 && f.width == width && f.height == height
    requires i < |before|
    ensures Drawn(before, f, width, height, mix)[i] == Drawn(other, f, width, height, mix)[i]
  {
    FlatIdx(width, height, i);
    CoveredAt(before, other, f, width, height, mix, i / 4 / width, i / 4 % width, i % 4);
  }

  /** `DrawnCovers` at channel `c` of canvas pixel (`px`, `py`). */
  lemma CoveredAt(before: seq<byte>, other: seq<byte>, f: FrameModel, width: nat, height: nat, mix: Mix,
                  py: nat, px: nat, c: nat)
    requires |before| == |other| == height * width * 4 && Drawable(f, width, height) && f.blend == Normal
    requires f.xOffset == 0 && f.yOffset == 0 && f.width == width && f.height == height
    requires py < height && px < width && c < 4
    ensures Composite(before, f, width, height, mix, f.height * f.width * 4, py, px, c) ==
            Composite(other, f, width, height, mix, f.height * f.width * 4, py, px, c)
  {
    IdxBound(f.width, f.height, py, px, c);
  }

  // ---------------------------------------------------------------- one pass of the loop

  /** A canvas of `n` zero bytes, as a new byte array holds. */
  function Blank(n: nat): (r: seq<byte>)
    ensures |r| == n && forall i :: 0 <= i < n ==> r[i] == 0
  {
    seq(n, _ => 0)
  }

  /** The output and saved buffers after the dispose step for a frame with mode `mode`: `None`
      saves the output, `Background` saves it and clears the output, `Previous` swaps the two. */
  function Disposed(mode: DisposeMode, shown: seq<byte>, saved: seq<byte>): (seq<byte>, seq<byte>)
  {
    match mode
    case None => (shown, shown)
    case Background => (Blank(|shown|), shown)
    case Previous => (saved, shown)
  }

  /** The output and saved buffers after one pass of the loop body with frame `f`: dispose, then
      draw the frame over the output. */
  function Pass(buffers: (seq<byte>, seq<byte>), f: FrameModel, width: nat, height: nat, mix: Mix): (r: (seq<byte>, seq<byte>))
    requires |buffers.0| == |buffers.1| == height * width * 4 && Drawable(f, width, height)
    ensures |r.0| == |r.1| == height * width * 4
  {
    var d := Disposed(f.dispose, buffers.0, buffers.1);
    (Drawn(d.0, f, width, height, mix), d.1)
  }

  /** The buffers after `n` passes over `frames`, starting from two blank canvases; pass `i`
      draws frame `i % |frames|`. */
  function Canvases(frames: seq<FrameModel>, width: nat, height: nat, mix: Mix, n: nat): (r: (seq<byte>, seq<byte>))
    requires |frames| > 0 && forall f <- frames :: Drawable(f, width, height)
    ensures |r.0| == |r.1| == height * width * 4
  {
    if n == 0 then (Blank(height * width * 4), Blank(height * width * 4))
    else Pass(Canvases(frames, width, height, mix, n - 1), frames[(n - 1) % |frames|], width, height, mix)
  }

  /** Whatever the dispose mode, a pass saves the output the previous pass showed. */
  lemma PassSavesShown(buffers: (seq<byte>, seq<byte>), f: FrameModel, width: nat, height: nat, mix: Mix)
    requires |buffers.0| == |buffers.1| == height * width * 4 && Drawable(f, width, height)
    ensures Pass(buffers, f, width, height, mix).1 == buffers.0
  {
  }

  /** A frame disposed with `Previous` is drawn over the output of two passes earlier: the saved
      buffer holds it, and the previous output is saved in its place. */
  lemma {:induction false} PreviousRestores(frames: seq<FrameModel>, width: nat, height: nat, mix: Mix, n: nat)
    requires |frames| > 0 && forall f <- frames :: Drawable(f, width, height)
    requires n >= 2 && frames[(n - 1) % |frames|].dispose == Previous
    ensures Canvases(frames, width, height, mix, n).0 ==
            Drawn(Canvases(frames, width, height, mix, n - 2).0, frames[(n - 1) % |frames|], width, height, mix)
    ensures Canvases(frames, width, height, mix, n).1 == Canvases(frames, width, height, mix, n - 1).0
  {
    PassSavesShown(Canvases(frames, width, height, mix, n - 2), frames[(n - 2) % |frames|], width, height, mix);
  }

  /** A frame disposed with `Background` is drawn over a blank canvas, whatever came before. */
  lemma BackgroundForgets(buffers: (seq<byte>, seq<byte>), other: (seq<byte>, seq<byte>), f: FrameModel,
                          width: nat, height: nat, mix: Mix)
    requires |buffers.0| == |buffers.1| == |other.0| == |other.1| == height * width * 4
    requires Drawable(f, width, height) && f.dispose == Background
    ensures Pass(buffers, f, width, height, mix).0 == Pass(other, f, width, height, mix).0
  {
  }

  /** How many passes `Play` runs within `budget` passes: `times` rounds of all frames when
      `times` is positive, otherwise (0 plays forever, a negative count is never reached) the
      whole budget. */
  function Played(times: int, frameCount: nat, budget: nat): (n: nat)
    ensures n <= budget
    ensures times > 0 ==> n <= times * frameCount
    ensures n < budget ==> times > 0 && n == times * frameCount
  {
    if times > 0 && times * frameCount < budget then times * frameCount else budget
  }

  // ---------------------------------------------------------------- the player

  /** The state `Play` keeps across passes: the frames, the canvas size, the number of rounds to
      play, the output buffer (`oBuffer`), the saved previous output (`pBuffer`), the index of
      the next frame and the number of completed rounds. */
  class Player {
    const frames: seq<FrameModel>
    const width: nat
    const height: nat
    const times: int
    var oBuffer: array<byte>
    var pBuffer: array<byte>
    var frame: nat
    var count: nat

    /** Two distinct canvases of the canvas size, frames that fit the canvas, and a frame index
        in range. */
    ghost predicate Valid()
      reads this
    {
      && |frames| > 0 && frame < |frames|
      && (forall f <- frames :: Drawable(f, width, height))
      && oBuffer.Length == height * width * 4 && pBuffer.Length == height * width * 4
      && oBuffer != pBuffer
    }

    /** The loop ends once `times` rounds are complete; `times == 0` never ends. */
    predicate Stopped()
      reads this
    {
      times != 0 && times == count
    }

    /** Two zeroed canvases, at the first frame with no round completed. */
    constructor (frames: seq<FrameModel>, width: nat, height: nat, times: int)
      requires |frames| > 0 && forall f <- frames :: Drawable(f, width, height)
      ensures Valid() && fresh(oBuffer) && fresh(pBuffer)
      ensures this.frames == frames && this.width == width && this.height == height && this.times == times
      ensures frame == 0 && count == 0
      ensures oBuffer[..] == Blank(height * width * 4) && pBuffer[..] == Blank(height * width * 4)
    {
      this.frames := frames;
      this.width := width;
      this.height := height;
      this.times := times;
      pBuffer := new byte[height * width * 4](_ => 0);
      oBuffer := new byte[height * width * 4](_ => 0);
      frame := 0;
      count := 0;
      new;
      assert oBuffer[..] == Blank(height * width * 4);
      assert pBuffer[..] == Blank(height * width * 4);
    }

    /** Copies the output into the saved buffer. */
    method SaveOutput()
      requires Valid()
      modifies pBuffer
      ensures pBuffer[..] == oBuffer[..] && oBuffer[..] == old(oBuffer[..])
    {
      forall i | 0 <= i < pBuffer.Length {
        pBuffer[i] := oBuffer[i];
      }
    }

    /** Fills the output with zero bytes (black, fully transparent). */
    method ClearOutput()
      requires Valid()
      modifies oBuffer
      ensures oBuffer[..] == Blank(oBuffer.Length)
    {
      var i := 0;
      while i < oBuffer.Length
        invariant 0 <= i <= oBuffer.Length
        invariant forall j :: 0 <= j < i ==> oBuffer[j] == 0
      {
        oBuffer[i] := 0;
        i := i + 1;
      }
    }

    /** Prepares the buffers as the dispose mode of the frame about to be drawn says. */
    method DisposeBuffers()
      requires Valid()
      modifies this, oBuffer, pBuffer
      ensures Valid() && frame == old(frame) && count == old(count)
      ensures {oBuffer, pBuffer} == {old(oBuffer), old(pBuffer)}
      ensures (oBuffer[..], pBuffer[..]) == Disposed(frames[frame].dispose, old(oBuffer[..]), old(pBuffer[..]))
    {
      match frames[frame].dispose {
        case None =>
          SaveOutput();
        case Background =>
          SaveOutput();
          ClearOutput();
        case Previous =>
          var temp := oBuffer;
          oBuffer := pBuffer;
          pBuffer := temp;
      }
    }

    /** Draws channel `c` of frame pixel (`x`, `y`), the frame byte after the first
        `Idx(f.width, y, x, c)`, at canvas index `offset`. */
    method PaintChannel(ghost before: seq<byte>, f: FrameModel, mix: Mix, y: nat, x: nat, c: nat, offset: nat, v: byte)
      requires Valid() && |before| == height * width * 4 && Drawable(f, width, height)
      requires y < f.height && x < f.width && c < 4
      requires offset == Idx(width, y + f.yOffset, x + f.xOffset, c) && offset < |before|
      requires Painting(oBuffer[..], before, f, width, height, mix, Idx(f.width, y, x, c))
      requires v == Painted(f, mix, before[offset], y, x, c)
      modifies oBuffer
      ensures Painting(oBuffer[..], before, f, width, height, mix, Idx(f.width, y, x, c) + 1)
    {
      PaintStep(oBuffer[..], before, f, width, height, mix, y, x, c, v);
      oBuffer[offset] := v;
    }

    /** Draws frame pixel (`x`, `y`), whose bytes start at `sOffset` in the frame's data, at canvas
        index `offset`. */
    method DrawPixel(ghost before: seq<byte>, f: FrameModel, mix: Mix, y: nat, x: nat, sOffset: nat, offset: nat)
      requires Valid() && |before| == height * width * 4 && Drawable(f, width, height)
      requires y < f.height && x < f.width
      requires sOffset == Idx(f.width, y, x, 0) && offset == Idx(width, y + f.yOffset, x + f.xOffset, 0)
      requires Painting(oBuffer[..], before, f, width, height, mix, sOffset)
      modifies oBuffer
      ensures Painting(oBuffer[..], before, f, width, height, mix, sOffset + 4)
    {
      if f.blend == AlphaBlending {
        BlendPixel(before, f, mix, y, x, sOffset, offset);
      } else {
        CopyPixel(before, f, mix, y, x, sOffset, offset);
      }
    }

    /** `AlphaBlending`: the three colour channels blended with the canvas by the pixel's alpha,
        then alpha 255. */
    method BlendPixel(ghost before: seq<byte>, f: FrameModel, mix: Mix, y: nat, x: nat, sOffset: nat, offset: nat)
      requires Valid() && |before| == height * width * 4 && Drawable(f, width, height)
      requires y < f.height && x < f.width
      requires sOffset == Idx(f.width, y, x, 0) && offset == Idx(width, y + f.yOffset, x + f.xOffset, 0)
      requires Painting(oBuffer[..], before, f, width, height, mix, sOffset) && f.blend == AlphaBlending
      modifies oBuffer
      ensures Painting(oBuffer[..], before, f, width, height, mix, sOffset + 4)
    {
      IdxBound(width, height, y + f.yOffset, x + f.xOffset, 3);
      UnpaintedPixel(oBuffer[..], before, f, width, height, mix, y, x);
      BlendedChannels(f, mix, oBuffer[offset], oBuffer[offset + 1], oBuffer[offset + 2], before[offset + 3], y, x);
      var alpha := f.data[sOffset + 3];
      var r := mix(f.data[sOffset], oBuffer[offset], alpha);
      var g := mix(f.data[sOffset + 1], oBuffer[offset + 1], alpha);
      var b := mix(f.data[sOffset + 2], oBuffer[offset + 2], alpha);
      PaintChannel(before, f, mix, y, x, 0, offset, r);
      PaintChannel(before, f, mix, y, x, 1, offset + 1, g);
      PaintChannel(before, f, mix, y, x, 2, offset + 2, b);
      PaintChannel(before, f, mix, y, x, 3, offset + 3, 255);
    }

    /** `Normal`: the four bytes of the pixel copied over the canvas. */
    method CopyPixel(ghost before: seq<byte>, f: FrameModel, mix: Mix, y: nat, x: nat, sOffset: nat, offset: nat)
      requires Valid() && |before| == height * width * 4 && Drawable(f, width, height)
      requires y < f.height && x < f.width
      requires sOffset == Idx(f.width, y, x, 0) && offset == Idx(width, y + f.yOffset, x + f.xOffset, 0)
      requires Painting(oBuffer[..], before, f, width, height, mix, sOffset) && f.blend == Normal
      modifies oBuffer
      ensures Painting(oBuffer[..], before, f, width, height, mix, sOffset + 4)
    {
      IdxBound(width, height, y + f.yOffset, x + f.xOffset, 3);
      IdxBound(f.width, f.height, y, x, 3);
      PaintChannel(before, f, mix, y, x, 0, offset, f.data[sOffset]);
      PaintChannel(before, f, mix, y, x, 1, offset + 1, f.data[sOffset + 1]);
      PaintChannel(before, f, mix, y, x, 2, offset + 2, f.data[sOffset + 2]);
      PaintChannel(before, f, mix, y, x, 3, offset + 3, f.data[sOffset + 3]);
    }

    /** Draws the current frame's rectangle onto the output, row by row: `Normal` copies its
        pixels, `AlphaBlending` blends the colour channels and writes alpha 255. */
    method Draw(mix: Mix)
      requires Valid()
      modifies oBuffer
      ensures oBuffer[..] == Drawn(old(oBuffer[..]), frames[frame], width, height, mix)
    {
      var f := frames[frame];
      ghost var before := oBuffer[..];
      PaintingStart(before, f, width, height, mix);
      var sOffset := 0;
      var y := 0;
      while y < f.height
        invariant 0 <= y <= f.height && sOffset == Idx(f.width, y, 0, 0)
        invariant Painting(oBuffer[..], before, f, width, height, mix, sOffset)
      {
        var offset := ((y + f.yOffset) * width + f.xOffset) * 4;
        var x := 0;
        while x < f.width
          invariant 0 <= x <= f.width
          invariant sOffset == Idx(f.width, y, x, 0) && offset == Idx(width, y + f.yOffset, x + f.xOffset, 0)
          invariant Painting(oBuffer[..], before, f, width, height, mix, sOffset)
        {
          DrawPixel(before, f, mix, y, x, sOffset, offset);
          offset := offset + 4;
          sOffset := sOffset + 4;
          x := x + 1;
        }
        IdxRowEnd(f.width, y);
        y := y + 1;
      }
      PaintingComplete(oBuffer[..], before, f, width, height, mix);
    }

    /** Moves to the next frame, wrapping to the first and counting a completed round: the number
        of passes, `count * |frames| + frame`, goes up by one. */
    method Advance()
      requires Valid()
      modifies this
      ensures Valid() && oBuffer == old(oBuffer) && pBuffer == old(pBuffer)
      ensures count * |frames| + frame == old(count * |frames| + frame) + 1
    {
      frame := frame + 1;
      if frame == |frames| {
        frame := 0;
        count := count + 1;
      }
    }

    /** One pass of the loop body: dispose, draw, advance. */
    method Step(mix: Mix)
      requires Valid()
      modifies this, oBuffer, pBuffer
      ensures Valid() && {oBuffer, pBuffer} == {old(oBuffer), old(pBuffer)}
      ensures (oBuffer[..], pBuffer[..]) == Pass(old((oBuffer[..], pBuffer[..])), frames[old(frame)], width, height, mix)
      ensures count * |frames| + frame == old(count * |frames| + frame) + 1
    {
      DisposeBuffers();
      Draw(mix);
      Advance();
    }
  }

  /** `Play(images, width, height, times, ...)`: runs passes until `times` rounds are complete
      (never, for `times == 0`), here at most `budget` of them. After `n` passes the frame index
      and round count are `n % |frames|` and `n / |frames|`, and the buffers are `Canvases(n)`. */
  method Play(frames: seq<FrameModel>, width: nat, height: nat, times: int, mix: Mix, budget: nat)
    returns (player: Player, passes: nat)
    requires |frames| > 0 && forall f <- frames :: Drawable(f, width, height)
    ensures player.Valid() && player.frames == frames && player.width == width && player.height == height
    ensures passes == Played(times, |frames|, budget)
    ensures player.frame == passes % |frames| && player.count == passes / |frames|
    ensures (player.oBuffer[..], player.pBuffer[..]) == Canvases(frames, width, height, mix, passes)
  {
    player := new Player(frames, width, height, times);
    passes := 0;
    while passes < budget && !player.Stopped()
      invariant player.Valid() && fresh(player.oBuffer) && fresh(player.pBuffer)
      invariant player.frames == frames && player.width == width && player.height == height && player.times == times
      invariant player.count * |frames| + player.frame == passes
      invariant times > 0 ==> passes <= times * |frames|
      invariant passes <= budget
      invariant (player.oBuffer[..], player.pBuffer[..]) == Canvases(frames, width, height, mix, passes)
      decreases budget - passes
    {
      Arith.DivMod(player.count, player.frame, |frames|);
      if times > 0 {
        Arith.DivMod(times, 0, |frames|);
      }
      player.Step(mix);
      passes := passes + 1;
    }
    Arith.DivMod(player.count, player.frame, |frames|);
    if times > 0 {
      Arith.DivMod(times, 0, |frames|);
    }
  }
}
