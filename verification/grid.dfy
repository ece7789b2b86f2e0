/**
 * Row-major positions in the two buffers the scanline decoder works on: the inflated image data
 * (one filter byte, then `width * bpp` bytes, per row) and the 32-bit BGRA canvas (four bytes per
 * pixel, `width * 4` per row).
 */
module Grid {
  import Arith

  /** Index of channel `k` of pixel (`x`, `y`) in a BGRA buffer `width` pixels wide. */
  function Idx(width: nat, y: nat, x: nat, k: nat): nat
  {
    (y * width + x) * 4 + k
  }

  /** Length of one filtered row: the filter byte and `width` pixels of `bpp` bytes. */
  function RowLength(width: nat, bpp: nat): nat
  {
    1 + width * bpp
  }

  /** Where row `y` (its filter byte) starts in the inflated data. */
  function RowStart(width: nat, bpp: nat, y: nat): nat
  {
    y * RowLength(width, bpp)
  }

  /** Where byte `c` of pixel `x` of row `y` sits in the inflated data. */
  function RawIndex(width: nat, bpp: nat, y: nat, x: nat, c: nat): nat
  {
    RowStart(width, bpp, y) + 1 + x * bpp + c
  }

  /** Pixel (`x`, `y`) comes before (`x2`, `y2`) in row-major order. */
  predicate Before(y: nat, x: nat, y2: nat, x2: nat)
  {
    y < y2 || (y == y2 && x < x2)
  }

  /** Every channel of every pixel of a `width` x `height` canvas lies in its `height * width * 4`
      bytes. */
  lemma IdxBound(width: nat, height: nat, y: nat, x: nat, k: nat)
    requires y < height && x < width && k < 4
    ensures Idx(width, y, x, k) < height * width * 4
  {
    Arith.RowBound(x, y, width, height);
    Arith.MulLe(y * width + x + 1, height * width, 4);
  }

  /** The four channels of a pixel follow the four channels of the pixel on its left, and the
      pixel above lies `4 * width` bytes earlier. */
  lemma IdxNeighbours(width: nat, y: nat, x: nat, k: nat)
    ensures x > 0 ==> Idx(width, y, x - 1, k) + 4 == Idx(width, y, x, k)
    ensures y > 0 ==> Idx(width, y - 1, x, k) + 4 * width == Idx(width, y, x, k)
  {
    if y > 0 {
      assert (y - 1) * width == y * width - width;
    }
  }

  /** A pixel before (`x`, `y`) has all its channels below the first channel of (`x`, `y`). */
  lemma IdxBefore(width: nat, y: nat, x: nat, y2: nat, x2: nat, k: nat)
    requires x < width && Before(y, x, y2, x2) && k < 4
    ensures Idx(width, y, x, k) < Idx(width, y2, x2, 0)
  {
    if y < y2 {
      Arith.MulLe(y + 1, y2, width);
      assert (y + 1) * width == y * width + width;
    }
  }

  /** Every byte of a filtered image of `height` rows lies in its `height * RowLength` bytes, and
      the pixels of a row follow each other `bpp` bytes apart. */
  lemma RawIndexBound(width: nat, bpp: nat, height: nat, y: nat, x: nat, c: nat)
    requires y < height && x < width && c < bpp
    ensures RowStart(width, bpp, y) < RawIndex(width, bpp, y, x, c) < RowStart(width, bpp, y + 1)
    ensures RowStart(width, bpp, y + 1) <= height * RowLength(width, bpp)
  {
    Arith.MulLe(x + 1, width, bpp);
    assert (x + 1) * bpp == x * bpp + bpp;
    assert (y + 1) * RowLength(width, bpp) == y * RowLength(width, bpp) + RowLength(width, bpp);
    Arith.MulLe(y + 1, height, RowLength(width, bpp));
  }

  /** The next pixel starts `bpp` bytes later, and the next row right after the last pixel. */
  lemma RawIndexStep(width: nat, bpp: nat, y: nat, x: nat)
    ensures RawIndex(width, bpp, y, x + 1, 0) == RawIndex(width, bpp, y, x, 0) + bpp
    ensures RawIndex(width, bpp, y, width, 0) == RowStart(width, bpp, y + 1)
  {
    assert (x + 1) * bpp == x * bpp + bpp;
    assert (y + 1) * RowLength(width, bpp) == y * RowLength(width, bpp) + RowLength(width, bpp);
  }

  /** The pixel after the last one of row `y` is the first of row `y + 1`. */
  lemma IdxRowEnd(width: nat, y: nat)
    ensures Idx(width, y, width, 0) == Idx(width, y + 1, 0, 0)
  {
    assert (y + 1) * width == y * width + width;
  }

  /** Canvas index `Idx(width, y, x, k)` decodes back to channel `k` of pixel (`x`, `y`). */
  lemma FlatPositionOf(width: nat, height: nat, y: nat, x: nat, k: nat)
    requires y < height && x < width && k < 4
    ensures Idx(width, y, x, k) < height * width * 4
    ensures Idx(width, y, x, k) / 4 / width == y && Idx(width, y, x, k) / 4 % width == x
    ensures Idx(width, y, x, k) % 4 == k
  {
    IdxBound(width, height, y, x, k);
    Arith.DivMod(y * width + x, k, 4);
    Arith.DivMod(y, x, width);
  }

  /** Every canvas index decodes to a pixel of the canvas and one of its four channels. */
  lemma FlatPosition(width: nat, height: nat, i: nat)
    requires i < height * width * 4
    ensures i / 4 / width < height && i % 4 < 4 && width > 0
    ensures i / 4 % width < width
  {
    var p := i / 4;
    assert p < height * width;
  }

  /** Every canvas index is the index of the pixel and channel it decodes to. */
  lemma FlatIdx(width: nat, height: nat, i: nat)
    requires i < height * width * 4
    ensures width > 0 && i / 4 / width < height && i / 4 % width < width
    ensures Idx(width, i / 4 / width, i / 4 % width, i % 4) == i
  {
    FlatPosition(width, height, i);
    var p := i / 4;
    assert (p / width) * width + p % width == p;
  }

  /** Distinct pixels or channels of a canvas have distinct indices. */
  lemma IdxInjective(width: nat, height: nat, y: nat, x: nat, k: nat, y2: nat, x2: nat, k2: nat)
    requires y < height && x < width && k < 4 && y2 < height && x2 < width && k2 < 4
    ensures Idx(width, y, x, k) == Idx(width, y2, x2, k2) <==> y == y2 && x == x2 && k == k2
  {
    FlatPositionOf(width, height, y, x, k);
    FlatPositionOf(width, height, y2, x2, k2);
  }
}
