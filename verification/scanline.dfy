/**
 * Reconstruction of filtered scanlines (`Unfilter` and its local function `Paeth` in
 * ImageLoader/Models/PNG.cs) for 8-bit RGB and RGBA images, into a BGRA canvas whose alpha is
 * 255 for RGB images.
 */
module Scanline {
  import opened ByteOrder
  import opened PngConstants
  import opened Grid
  import Arith

  // ---------------------------------------------------------------- predictors

  /** `(short)((p ^ (p >> 15)) - (p >> 15))` on a `short` `p`: the branch-free absolute value.
      `p >> 15` is an arithmetic shift, so it is 0 or, for negative `p`, -1 (all bits set); an
      exclusive or with all bits set is the bitwise complement, `-p - 1` in two's complement. */
  function ShortAbs(p: int): (r: int)
    requires -0x7FFF <= p <= 0x7FFF
    ensures r == if p < 0 then -p else p
  {
    var mask := p / 0x8000;
    var flipped := if mask == 0 then p else -p - 1;
    flipped - mask
  }

  /** `Paeth(v1, v2, v3)` with `v1` the byte on the left, `v2` the byte above and `v3` the byte
      above-left: the neighbour closest to `v1 + v2 - v3`, ties going to `v1`, then `v2`. */
  function Paeth(v1: byte, v2: byte, v3: byte): (r: byte)
    ensures r == v1 || r == v2 || r == v3
  {
    var pa := ShortAbs(v2 - v3);
    var pb := ShortAbs(v1 - v3);
    var pc := ShortAbs(v1 + v2 - v3 - v3);
    if pa <= pb && pa <= pc then v1
    else if pb <= pc then v2
    else v3
  }

  function Abs(n: int): nat
  {
    if n < 0 then -n else n
  }

  /** The Paeth predictor as the PNG specification writes it for filter type 4 (Paeth):
      `p = a + b - c` and the distances of `a`, `b`, `c` from `p`. */
  function StandardPaeth(a: byte, b: byte, c: byte): byte
  {
    var p := a + b - c;
    var pa := Abs(p - a);
    var pb := Abs(p - b);
    var pc := Abs(p - c);
    if pa <= pb && pa <= pc then a
    else if pb <= pc then b
    else c
  }

  /** The local `Paeth` is the standard predictor. */
  lemma PaethIsStandard(a: byte, b: byte, c: byte)
    ensures Paeth(a, b, c) == StandardPaeth(a, b, c)
  {
  }

  /** The value the filter added to a byte, given which neighbours the pixel has: the branches
      of the `switch (filterType)` in `Unfilter`. */
  function Predictor(filter: byte, hasLeft: bool, hasUp: bool, left: byte, up: byte, upLeft: byte): byte
    requires FilterDefined(filter)
  {
    if filter == FilterNone then 0
    else if filter == FilterSub then (if hasLeft then left else 0)
    else if filter == FilterUp then (if hasUp then up else 0)
    else if filter == FilterAverage then
      (if hasUp && hasLeft then (left + up) / 2
       else if hasUp then up / 2
       else if hasLeft then left / 2
       else 0)
    else
      (if hasUp && hasLeft then Paeth(left, up, upLeft)
       else if hasUp then up
       else if hasLeft then left
       else 0)
  }

  /** The predictors of the five filter types of the PNG specification's filter method 0 (None,
      Sub, Up, Average, Paeth), where a neighbour outside the image counts as 0. */
  function StandardPredictor(filter: byte, a: byte, b: byte, c: byte): byte
    requires FilterDefined(filter)
  {
    if filter == FilterNone then 0
    else if filter == FilterSub then a
    else if filter == FilterUp then b
    else if filter == FilterAverage then (a + b) / 2
    else StandardPaeth(a, b, c)
  }

  /** The edge cases of `Unfilter` are the standard predictors with the missing neighbours
      taken as 0. */
  lemma PredictorIsStandard(filter: byte, hasLeft: bool, hasUp: bool, left: byte, up: byte, upLeft: byte)
    requires FilterDefined(filter)
    ensures Predictor(filter, hasLeft, hasUp, left, up, upLeft) ==
      StandardPredictor(filter, if hasLeft then left else 0, if hasUp then up else 0,
                        if hasLeft && hasUp then upLeft else 0)
  {
    DefinedCodes(filter);
    PaethIsStandard(left, up, upLeft);
    if filter == FilterPaeth && !(hasLeft && hasUp) {
      PaethIsStandard(if hasLeft then left else 0, if hasUp then up else 0, 0);
    }
  }

  // ---------------------------------------------------------------- reconstruction

  /** The color types `Unfilter` expands. */
  predicate Expandable(ct: ColorType)
  {
    ct == RGB || ct == RGBAlpha
  }

  /** Bytes per pixel in the inflated data. */
  function BytesPerPixel(ct: ColorType): (n: nat)
    requires Expandable(ct)
    ensures n == 3 || n == 4
    ensures (n == 3) == (ct == RGB)
  {
    if ct == RGB then 3 else 4
  }

  /** The inflated data holds `height` rows of `width` pixels, each row led by a defined filter
      byte. */
  predicate WellFiltered(buffer: seq<byte>, width: nat, height: nat, ct: ColorType)
    requires Expandable(ct)
  {
    && height * RowLength(width, BytesPerPixel(ct)) <= |buffer|
    && forall y :: 0 <= y < height ==>
         RowStart(width, BytesPerPixel(ct), y) < |buffer| && FilterDefined(buffer[RowStart(width, BytesPerPixel(ct), y)])
  }

  /** Which byte of an RGB(A) pixel goes to BGRA channel `k`. */
  function SourceChannel(k: nat): nat
    requires k < 4
  {
    if k == 0 then 2 else if k == 1 then 1 else if k == 2 then 0 else 3
  }

  /** The filtered byte for channel `k` of pixel (`x`, `y`); an RGB image has the alpha 255. */
  function Filtered(buffer: seq<byte>, width: nat, height: nat, ct: ColorType, y: nat, x: nat, k: nat): byte
    requires Expandable(ct) && WellFiltered(buffer, width, height, ct)
    requires y < height && x < width && k < 4
  {
    var bpp := BytesPerPixel(ct);
    if k == 3 && ct == RGB then 255
    else
      RawIndexBound(width, bpp, height, y, x, SourceChannel(k));
      buffer[RawIndex(width, bpp, y, x, SourceChannel(k))]
  }

  /** The filter byte of row `y`. */
  function FilterOf(buffer: seq<byte>, width: nat, height: nat, ct: ColorType, y: nat): (f: byte)
    requires Expandable(ct) && WellFiltered(buffer, width, height, ct) && y < height
    ensures FilterDefined(f)
  {
    buffer[RowStart(width, BytesPerPixel(ct), y)]
  }

  /** The reconstructed channel `k` (BGRA) of pixel (`x`, `y`): the filtered byte plus the
      predictor over the already reconstructed neighbours, modulo 256. The alpha of an RGB image
      gets no predictor. */
  function Recon(buffer: seq<byte>, width: nat, height: nat, ct: ColorType, y: nat, x: nat, k: nat): byte
    requires Expandable(ct) && WellFiltered(buffer, width, height, ct)
    requires y < height && x < width && k < 4
    decreases y, x
  {
    var pred :=
      if k == 3 && ct == RGB then 0
      else
        Predictor(FilterOf(buffer, width, height, ct, y), x > 0, y > 0,
                  if x > 0 then Recon(buffer, width, height, ct, y, x - 1, k) else 0,
                  if y > 0 then Recon(buffer, width, height, ct, y - 1, x, k) else 0,
                  if x > 0 && y > 0 then Recon(buffer, width, height, ct, y - 1, x - 1, k) else 0);
    (Filtered(buffer, width, height, ct, y, x, k) + pred) % 0x100
  }

  /** All channels of all pixels hold their reconstructed values. */
  ghost predicate Reconstructed(colors: seq<byte>, buffer: seq<byte>, width: nat, height: nat, ct: ColorType)
    requires Expandable(ct) && WellFiltered(buffer, width, height, ct)
  {
    forall y, x, k :: 0 <= y < height && 0 <= x < width && 0 <= k < 4 ==>
      Idx(width, y, x, k) < |colors| && colors[Idx(width, y, x, k)] == Recon(buffer, width, height, ct, y, x, k)
  }

  /** The reconstructed value of the canvas byte at index `i`. */
  function ReconAt(buffer: seq<byte>, width: nat, height: nat, ct: ColorType, i: nat): byte
    requires Expandable(ct) && WellFiltered(buffer, width, height, ct) && i < height * width * 4
  {
    FlatPosition(width, height, i);
    Recon(buffer, width, height, ct, i / 4 / width, i / 4 % width, i % 4)
  }

  /** The first `n` canvas bytes hold their reconstructed values. */
  ghost predicate Prefix(colors: seq<byte>, buffer: seq<byte>, width: nat, height: nat, ct: ColorType, n: nat)
    requires Expandable(ct) && WellFiltered(buffer, width, height, ct)
  {
    && n <= |colors| == height * width * 4
    && forall i :: 0 <= i < n ==> colors[i] == ReconAt(buffer, width, height, ct, i)
  }

  // ---------------------------------------------------------------- the decoding loop

  /** `Unfilter(buffer, width, height, type)`: walks the rows and their pixels in order, reading
      the filter byte of each row and the 3 or 4 bytes of each pixel from the inflated data, and
      writes the reconstructed B, G, R and A bytes into a new `height * width * 4` canvas. */
  method Unfilter(buffer: seq<byte>, width: nat, height: nat, ct: ColorType) returns (colors: array<byte>)
    requires Expandable(ct) && WellFiltered(buffer, width, height, ct)
    ensures colors.Length == height * width * 4
    ensures Reconstructed(colors[..], buffer, width, height, ct)
    ensures ct == RGB ==> forall y, x :: 0 <= y < height && 0 <= x < width ==> colors[Idx(width, y, x, 3)] == 255
  {
    colors := new byte[height * width * 4];
    var bpp := BytesPerPixel(ct);
    var foffset := 0;
    var uoffset := 0;
    var y := 0;
    while y < height
      invariant y <= height && colors.Length == height * width * 4
      invariant foffset == RowStart(width, bpp, y) && uoffset == Idx(width, y, 0, 0)
      invariant Prefix(colors[..], buffer, width, height, ct, uoffset)
    {
      RawIndexStep(width, bpp, y, 0);
      var filterType := buffer[foffset];
      assert filterType == FilterOf(buffer, width, height, ct, y);
      foffset := foffset + 1;
      var x := 0;
      while x < width
        invariant x <= width
        invariant foffset == RawIndex(width, bpp, y, x, 0) && uoffset == Idx(width, y, x, 0)
        invariant Prefix(colors[..], buffer, width, height, ct, uoffset)
      {
        WritePixel(colors, buffer, width, height, ct, y, x, filterType, foffset, uoffset);
        RawIndexStep(width, bpp, y, x);
        foffset := foffset + bpp;
        uoffset := uoffset + 4;
        x := x + 1;
      }
      IdxRowEnd(width, y);
      y := y + 1;
    }
    IdxRowEnd(width, height);
    PrefixComplete(colors[..], buffer, width, height, ct);
    if ct == RGB {
      OpaqueAlpha(colors[..], buffer, width, height, ct);
    }
  }

  /** Reads the filtered bytes of pixel (`x`, `y`) at `foffset` (R, G, B and, for RGBA, A) and
      writes its reconstructed B, G, R and A bytes at canvas index `u`; RGB pixels get alpha 255. */
  method WritePixel(colors: array<byte>, buffer: seq<byte>, width: nat, height: nat, ct: ColorType,
                    y: nat, x: nat, filter: byte, foffset: nat, u: nat)
    requires Expandable(ct) && WellFiltered(buffer, width, height, ct)
    requires y < height && x < width && foffset == RawIndex(width, BytesPerPixel(ct), y, x, 0) && u == Idx(width, y, x, 0)
    requires filter == FilterOf(buffer, width, height, ct, y)
    requires Prefix(colors[..], buffer, width, height, ct, u)
    modifies colors
    ensures Prefix(colors[..], buffer, width, height, ct, u + 4)
  {
    RawIndexBound(width, BytesPerPixel(ct), height, y, x, BytesPerPixel(ct) - 1);
    var r := buffer[foffset];
    var g := buffer[foffset + 1];
    var b := buffer[foffset + 2];
    var a := if ct == RGB then 255 else buffer[foffset + 3];
    WriteChannel(colors, buffer, width, height, ct, y, x, 0, filter, b, u);
    WriteChannel(colors, buffer, width, height, ct, y, x, 1, filter, g, u + 1);
    WriteChannel(colors, buffer, width, height, ct, y, x, 2, filter, r, u + 2);
    WriteChannel(colors, buffer, width, height, ct, y, x, 3, filter, a, u + 3);
  }

  /** Writes channel `k` of pixel (`x`, `y`), canvas index `u`: the filtered byte `v` plus the
      predictor of the row's filter over the neighbours already in the canvas. */
  method WriteChannel(colors: array<byte>, buffer: seq<byte>, width: nat, height: nat, ct: ColorType,
                      y: nat, x: nat, k: nat, filter: byte, v: byte, u: nat)
    requires Expandable(ct) && WellFiltered(buffer, width, height, ct)
    requires y < height && x < width && k < 4 && u == Idx(width, y, x, k)
    requires filter == FilterOf(buffer, width, height, ct, y) && v == Filtered(buffer, width, height, ct, y, x, k)
    requires Prefix(colors[..], buffer, width, height, ct, u)
    modifies colors
    ensures Prefix(colors[..], buffer, width, height, ct, u + 1)
  {
    IdxBound(width, height, y, x, k);
    Neighbours(colors[..], buffer, width, height, ct, y, x, k, u);
    var left := if x > 0 then colors[u - 4] else 0;
    var up := if y > 0 then colors[u - 4 * width] else 0;
    var upLeft := if x > 0 && y > 0 then colors[u - 4 * width - 4] else 0;
    var pred := if k == 3 && ct == RGB then 0 else Predictor(filter, x > 0, y > 0, left, up, upLeft);
    ReconStep(buffer, width, height, ct, y, x, k, left, up, upLeft);
    var value: byte := (v + pred) % 0x100;
    assert value == Recon(buffer, width, height, ct, y, x, k);
    colors[u] := value;
    assert colors[..] == old(colors[..])[u := value];
    PrefixExtend(old(colors[..]), colors[..], buffer, width, height, ct, y, x, k, u);
  }

  /** `Recon` over given neighbour values. */
  lemma ReconStep(buffer: seq<byte>, width: nat, height: nat, ct: ColorType, y: nat, x: nat, k: nat,
                  left: byte, up: byte, upLeft: byte)
    requires Expandable(ct) && WellFiltered(buffer, width, height, ct)
    requires y < height && x < width && k < 4
    requires left == if x > 0 then Recon(buffer, width, height, ct, y, x - 1, k) else 0
    requires up == if y > 0 then Recon(buffer, width, height, ct, y - 1, x, k) else 0
    requires upLeft == if x > 0 && y > 0 then Recon(buffer, width, height, ct, y - 1, x - 1, k) else 0
    ensures Recon(buffer, width, height, ct, y, x, k) ==
      (Filtered(buffer, width, height, ct, y, x, k) +
       (if k == 3 && ct == RGB then 0 else Predictor(FilterOf(buffer, width, height, ct, y), x > 0, y > 0, left, up, upLeft)))
      % 0x100
  {
  }

  /** Writing the reconstructed channel at the end of the prefix extends the prefix. */
  lemma PrefixExtend(before: seq<byte>, after: seq<byte>, buffer: seq<byte>, width: nat, height: nat, ct: ColorType,
                     y: nat, x: nat, k: nat, u: nat)
    requires Expandable(ct) && WellFiltered(buffer, width, height, ct)
    requires y < height && x < width && k < 4 && u == Idx(width, y, x, k)
    requires Prefix(before, buffer, width, height, ct, u) && u < |before|
    requires after == before[u := Recon(buffer, width, height, ct, y, x, k)]
    ensures Prefix(after, buffer, width, height, ct, u + 1)
  {
    FlatPositionOf(width, height, y, x, k);
  }

  /** In a canvas whose first `u` bytes are reconstructed, the left, upper and upper-left
      neighbours of canvas index `u` hold their reconstructed values. */
  lemma Neighbours(colors: seq<byte>, buffer: seq<byte>, width: nat, height: nat, ct: ColorType,
                   y: nat, x: nat, k: nat, u: nat)
    requires Expandable(ct) && WellFiltered(buffer, width, height, ct)
    requires y < height && x < width && k < 4 && u == Idx(width, y, x, k)
    requires Prefix(colors, buffer, width, height, ct, u)
    ensures x > 0 ==> 4 <= u && colors[u - 4] == Recon(buffer, width, height, ct, y, x - 1, k)
    ensures y > 0 ==> 4 * width <= u && colors[u - 4 * width] == Recon(buffer, width, height, ct, y - 1, x, k)
    ensures x > 0 && y > 0 ==>
      4 * width + 4 <= u && colors[u - 4 * width - 4] == Recon(buffer, width, height, ct, y - 1, x - 1, k)
  {
    if x > 0 {
      Neighbour(colors, buffer, width, height, ct, u, 4, y, x - 1, k);
    }
    if y > 0 {
      UpNeighbour(colors, buffer, width, height, ct, y, x, k, u);
    }
    if x > 0 && y > 0 {
      UpLeftNeighbour(colors, buffer, width, height, ct, y, x, k, u);
    }
  }

  /** The byte one row above channel `k` of (`x`, `y`) holds its reconstructed value. */
  lemma UpNeighbour(colors: seq<byte>, buffer: seq<byte>, width: nat, height: nat, ct: ColorType,
                    y: nat, x: nat, k: nat, u: nat)
    requires Expandable(ct) && WellFiltered(buffer, width, height, ct)
    requires 0 < y < height && x < width && k < 4 && u == Idx(width, y, x, k)
    requires Prefix(colors, buffer, width, height, ct, u)
    ensures 4 * width <= u && colors[u - 4 * width] == Recon(buffer, width, height, ct, y - 1, x, k)
  {
    IdxNeighbours(width, y, x, k);
    Neighbour(colors, buffer, width, height, ct, u, 4 * width, y - 1, x, k);
  }

  /** The byte one row above and one pixel left of channel `k` of (`x`, `y`) holds its
      reconstructed value. */
  lemma UpLeftNeighbour(colors: seq<byte>, buffer: seq<byte>, width: nat, height: nat, ct: ColorType,
                        y: nat, x: nat, k: nat, u: nat)
    requires Expandable(ct) && WellFiltered(buffer, width, height, ct)
    requires 0 < y < height && 0 < x < width && k < 4 && u == Idx(width, y, x, k)
    requires Prefix(colors, buffer, width, height, ct, u)
    ensures 4 * width + 4 <= u && colors[u - 4 * width - 4] == Recon(buffer, width, height, ct, y - 1, x - 1, k)
  {
    IdxNeighbours(width, y, x, k);
    IdxNeighbours(width, y - 1, x, k);
    Neighbour(colors, buffer, width, height, ct, u, 4 * width + 4, y - 1, x - 1, k);
  }

  /** The byte `d` places before index `u` of a canvas whose first `u` bytes are reconstructed,
      when it is channel `k` of (`x`, `y`), holds its reconstructed value. */
  lemma Neighbour(colors: seq<byte>, buffer: seq<byte>, width: nat, height: nat, ct: ColorType,
                  u: nat, d: nat, y: nat, x: nat, k: nat)
    requires Expandable(ct) && WellFiltered(buffer, width, height, ct)
    requires y < height && x < width && k < 4 && 0 < d && Idx(width, y, x, k) + d == u
    requires Prefix(colors, buffer, width, height, ct, u)
    ensures d <= u && colors[u - d] == Recon(buffer, width, height, ct, y, x, k)
  {
    var i := Idx(width, y, x, k);
    ReconAtIdx(buffer, width, height, ct, y, x, k);
    PrefixAt(colors, buffer, width, height, ct, u, i);
  }

  /** A byte inside the reconstructed prefix holds its reconstructed value. */
  lemma PrefixAt(colors: seq<byte>, buffer: seq<byte>, width: nat, height: nat, ct: ColorType, n: nat, i: nat)
    requires Expandable(ct) && WellFiltered(buffer, width, height, ct)
    requires Prefix(colors, buffer, width, height, ct, n) && i < n
    ensures i < |colors| && colors[i] == ReconAt(buffer, width, height, ct, i)
  {
  }

  /** The reconstructed canvas byte at the index of channel `k` of (`x`, `y`) is that channel. */
  lemma ReconAtIdx(buffer: seq<byte>, width: nat, height: nat, ct: ColorType, y: nat, x: nat, k: nat)
    requires Expandable(ct) && WellFiltered(buffer, width, height, ct)
    requires y < height && x < width && k < 4
    ensures Idx(width, y, x, k) < height * width * 4
    ensures ReconAt(buffer, width, height, ct, Idx(width, y, x, k)) == Recon(buffer, width, height, ct, y, x, k)
  {
    FlatPositionOf(width, height, y, x, k);
  }

  /** A canvas whose bytes all hold their reconstructed values holds every pixel's channels. */
  lemma PrefixComplete(colors: seq<byte>, buffer: seq<byte>, width: nat, height: nat, ct: ColorType)
    requires Expandable(ct) && WellFiltered(buffer, width, height, ct)
    requires Prefix(colors, buffer, width, height, ct, height * width * 4)
    ensures Reconstructed(colors, buffer, width, height, ct)
  {
    forall y, x, k | 0 <= y < height && 0 <= x < width && 0 <= k < 4
      ensures Idx(width, y, x, k) < |colors| && colors[Idx(width, y, x, k)] == Recon(buffer, width, height, ct, y, x, k)
    {
      FlatPositionOf(width, height, y, x, k);
    }
  }

  // ---------------------------------------------------------------- the encoder it inverts

  /** The PNG standard's filter step for one byte (filter method 0 of the PNG specification): the
      original byte minus the predictor, modulo 256. */
  function FilterByte(filter: byte, hasLeft: bool, hasUp: bool, value: byte, left: byte, up: byte, upLeft: byte): byte
    requires FilterDefined(filter)
  {
    (value - Predictor(filter, hasLeft, hasUp, left, up, upLeft)) % 0x100
  }

  /** `buffer` is `image` (channel `k` of pixel (`x`, `y`) in BGRA order) filtered row by row with
      the filter bytes it carries; an RGB image has alpha 255 everywhere. */
  ghost predicate Encodes(buffer: seq<byte>, width: nat, height: nat, ct: ColorType, image: (nat, nat, nat) -> byte)
    requires Expandable(ct) && WellFiltered(buffer, width, height, ct)
  {
    forall y, x, k :: 0 <= y < height && 0 <= x < width && 0 <= k < 4 ==> EncodesAt(buffer, width, height, ct, image, y, x, k)
  }

  /** Channel `k` of pixel (`x`, `y`) of `buffer` is the filtered byte of `image`. */
  ghost predicate EncodesAt(buffer: seq<byte>, width: nat, height: nat, ct: ColorType, image: (nat, nat, nat) -> byte,
                            y: nat, x: nat, k: nat)
    requires Expandable(ct) && WellFiltered(buffer, width, height, ct)
    requires y < height && x < width && k < 4
  {
    if k == 3 && ct == RGB then image(y, x, k) == 255
    else
      Filtered(buffer, width, height, ct, y, x, k) ==
        FilterByte(FilterOf(buffer, width, height, ct, y), x > 0, y > 0, image(y, x, k),
                   if x > 0 then image(y, x - 1, k) else 0,
                   if y > 0 then image(y - 1, x, k) else 0,
                   if x > 0 && y > 0 then image(y - 1, x - 1, k) else 0)
  }

  /** Reconstruction undoes filtering: each channel comes back as the original byte. */
  lemma {:induction false} ReconOfEncoded(buffer: seq<byte>, width: nat, height: nat, ct: ColorType,
                                          image: (nat, nat, nat) -> byte, y: nat, x: nat, k: nat)
    requires Expandable(ct) && WellFiltered(buffer, width, height, ct) && Encodes(buffer, width, height, ct, image)
    requires y < height && x < width && k < 4
    ensures Recon(buffer, width, height, ct, y, x, k) == image(y, x, k)
    decreases y, x
  {
    if x > 0 {
      ReconOfEncoded(buffer, width, height, ct, image, y, x - 1, k);
    }
    if y > 0 {
      ReconOfEncoded(buffer, width, height, ct, image, y - 1, x, k);
      if x > 0 {
        ReconOfEncoded(buffer, width, height, ct, image, y - 1, x - 1, k);
      }
    }
    var left := if x > 0 then image(y, x - 1, k) else 0;
    var up := if y > 0 then image(y - 1, x, k) else 0;
    var upLeft := if x > 0 && y > 0 then image(y - 1, x - 1, k) else 0;
    ReconStep(buffer, width, height, ct, y, x, k, left, up, upLeft);
    assert EncodesAt(buffer, width, height, ct, image, y, x, k);
    EncodedStep(buffer, width, height, ct, image, y, x, k, left, up, upLeft);
  }

  /** One step of `ReconOfEncoded`: the filtered byte plus the predictor over the original
      neighbours is the original byte. */
  lemma EncodedStep(buffer: seq<byte>, width: nat, height: nat, ct: ColorType,
                    image: (nat, nat, nat) -> byte, y: nat, x: nat, k: nat, left: byte, up: byte, upLeft: byte)
    requires Expandable(ct) && WellFiltered(buffer, width, height, ct)
    requires y < height && x < width && k < 4 && EncodesAt(buffer, width, height, ct, image, y, x, k)
    requires left == if x > 0 then image(y, x - 1, k) else 0
    requires up == if y > 0 then image(y - 1, x, k) else 0
    requires upLeft == if x > 0 && y > 0 then image(y - 1, x - 1, k) else 0
    ensures image(y, x, k) ==
      (Filtered(buffer, width, height, ct, y, x, k) +
       (if k == 3 && ct == RGB then 0 else Predictor(FilterOf(buffer, width, height, ct, y), x > 0, y > 0, left, up, upLeft)))
      % 0x100
  {
    if !(k == 3 && ct == RGB) {
      AddUndoesSubtract(image(y, x, k), Predictor(FilterOf(buffer, width, height, ct, y), x > 0, y > 0, left, up, upLeft));
    }
  }

  /** Adding back modulo 256 what was subtracted modulo 256 restores the byte. */
  lemma AddUndoesSubtract(v: byte, p: byte)
    ensures ((v - p) % 0x100 + p) % 0x100 == v
  {
    if v < p {
      assert (v - p) % 0x100 == v - p + 0x100;
    }
  }

  /** The canvas `Unfilter` fills from a filtered image is that image, byte for byte. */
  lemma UnfilterRecoversImage(buffer: seq<byte>, width: nat, height: nat, ct: ColorType,
                              image: (nat, nat, nat) -> byte, colors: seq<byte>)
    requires Expandable(ct) && WellFiltered(buffer, width, height, ct) && Encodes(buffer, width, height, ct, image)
    requires Reconstructed(colors, buffer, width, height, ct)
    ensures forall y, x, k :: 0 <= y < height && 0 <= x < width && 0 <= k < 4 ==>
      Idx(width, y, x, k) < |colors| && colors[Idx(width, y, x, k)] == image(y, x, k)
  {
    forall y, x, k | 0 <= y < height && 0 <= x < width && 0 <= k < 4
      ensures Idx(width, y, x, k) < |colors| && colors[Idx(width, y, x, k)] == image(y, x, k)
    {
      ReconOfEncoded(buffer, width, height, ct, image, y, x, k);
    }
  }

  /** An RGB image has no alpha samples: every pixel of the reconstructed canvas is opaque. */
  lemma OpaqueAlpha(colors: seq<byte>, buffer: seq<byte>, width: nat, height: nat, ct: ColorType)
    requires Expandable(ct) && WellFiltered(buffer, width, height, ct) && ct == RGB
    requires Reconstructed(colors, buffer, width, height, ct)
    ensures forall y, x :: 0 <= y < height && 0 <= x < width ==>
      Idx(width, y, x, 3) < |colors| && colors[Idx(width, y, x, 3)] == 255
  {
    forall y, x | 0 <= y < height && 0 <= x < width
      ensures Idx(width, y, x, 3) < |colors| && colors[Idx(width, y, x, 3)] == 255
    {
      assert colors[Idx(width, y, x, 3)] == Recon(buffer, width, height, ct, y, x, 3);
    }
  }

  /** Reconstruction reads only the `height` filtered rows, `height * (1 + width * bpp)` bytes:
      two inflated buffers that agree on those give the same channel. */
  lemma {:induction false} ReconUsesRows(b1: seq<byte>, b2: seq<byte>, width: nat, height: nat, ct: ColorType,
                                         y: nat, x: nat, k: nat)
    requires Expandable(ct) && WellFiltered(b1, width, height, ct) && WellFiltered(b2, width, height, ct)
    requires b1[..height * RowLength(width, BytesPerPixel(ct))] == b2[..height * RowLength(width, BytesPerPixel(ct))]
    requires y < height && x < width && k < 4
    ensures Recon(b1, width, height, ct, y, x, k) == Recon(b2, width, height, ct, y, x, k)
    decreases y, x
  {
    RowsAgree(b1, b2, width, height, ct, y, x, k);
    if x > 0 {
      ReconUsesRows(b1, b2, width, height, ct, y, x - 1, k);
    }
    if y > 0 {
      ReconUsesRows(b1, b2, width, height, ct, y - 1, x, k);
    }
    if x > 0 && y > 0 {
      ReconUsesRows(b1, b2, width, height, ct, y - 1, x - 1, k);
    }
    ReconAgreeStep(b1, b2, width, height, ct, y, x, k);
  }

  /** Two buffers with the same filter byte and filtered sample, and the same reconstructed
      neighbours, reconstruct the same channel. */
  lemma ReconAgreeStep(b1: seq<byte>, b2: seq<byte>, width: nat, height: nat, ct: ColorType, y: nat, x: nat, k: nat)
    requires Expandable(ct) && WellFiltered(b1, width, height, ct) && WellFiltered(b2, width, height, ct)
    requires y < height && x < width && k < 4
    requires FilterOf(b1, width, height, ct, y) == FilterOf(b2, width, height, ct, y)
    requires Filtered(b1, width, height, ct, y, x, k) == Filtered(b2, width, height, ct, y, x, k)
    requires x > 0 ==> Recon(b1, width, height, ct, y, x - 1, k) == Recon(b2, width, height, ct, y, x - 1, k)
    requires y > 0 ==> Recon(b1, width, height, ct, y - 1, x, k) == Recon(b2, width, height, ct, y - 1, x, k)
    requires x > 0 && y > 0 ==> Recon(b1, width, height, ct, y - 1, x - 1, k) == Recon(b2, width, height, ct, y - 1, x - 1, k)
    ensures Recon(b1, width, height, ct, y, x, k) == Recon(b2, width, height, ct, y, x, k)
  {
    var left := if x > 0 then Recon(b1, width, height, ct, y, x - 1, k) else 0;
    var up := if y > 0 then Recon(b1, width, height, ct, y - 1, x, k) else 0;
    var upLeft := if x > 0 && y > 0 then Recon(b1, width, height, ct, y - 1, x - 1, k) else 0;
    ReconStep(b1, width, height, ct, y, x, k, left, up, upLeft);
    ReconStep(b2, width, height, ct, y, x, k, left, up, upLeft);
  }

  /** The filter byte and the filtered sample of a channel lie in the filtered rows. */
  lemma RowsAgree(b1: seq<byte>, b2: seq<byte>, width: nat, height: nat, ct: ColorType, y: nat, x: nat, k: nat)
    requires Expandable(ct) && WellFiltered(b1, width, height, ct) && WellFiltered(b2, width, height, ct)
    requires b1[..height * RowLength(width, BytesPerPixel(ct))] == b2[..height * RowLength(width, BytesPerPixel(ct))]
    requires y < height && x < width && k < 4
    ensures FilterOf(b1, width, height, ct, y) == FilterOf(b2, width, height, ct, y)
    ensures Filtered(b1, width, height, ct, y, x, k) == Filtered(b2, width, height, ct, y, x, k)
  {
    var bpp := BytesPerPixel(ct);
    var n := height * RowLength(width, bpp);
    RawIndexBound(width, bpp, height, y, x, 0);
    assert b1[RowStart(width, bpp, y)] == b1[..n][RowStart(width, bpp, y)];
    if !(k == 3 && ct == RGB) {
      var c := SourceChannel(k);
      RawIndexBound(width, bpp, height, y, x, c);
      assert b1[RawIndex(width, bpp, y, x, c)] == b1[..n][RawIndex(width, bpp, y, x, c)];
    }
  }

  /** A canvas `Unfilter` produced is the reconstruction of any inflated buffer that shares the
      filtered rows: the bytes after them are ignored. */
  lemma ReconstructedUsesRows(colors: seq<byte>, b1: seq<byte>, b2: seq<byte>, width: nat, height: nat, ct: ColorType)
    requires Expandable(ct) && WellFiltered(b1, width, height, ct) && WellFiltered(b2, width, height, ct)
    requires b1[..height * RowLength(width, BytesPerPixel(ct))] == b2[..height * RowLength(width, BytesPerPixel(ct))]
    requires Reconstructed(colors, b1, width, height, ct)
    ensures Reconstructed(colors, b2, width, height, ct)
  {
    forall y, x, k | 0 <= y < height && 0 <= x < width && 0 <= k < 4
      ensures Idx(width, y, x, k) < |colors| && colors[Idx(width, y, x, k)] == Recon(b2, width, height, ct, y, x, k)
    {
      ReconUsesRows(b1, b2, width, height, ct, y, x, k);
    }
  }
}
