/** The pixel grid of the ray caster: the viewport's size, the view offset
    `rayFromPixelPosition` gives each column and row, and the order in which
    `main` writes the pixels — row by row, top row first, left to right,
    every row closed by a line break.
 */
module Raster {

  /** The viewport's `WIDTH` and `HEIGHT`. A row of the pixel loop takes
      `WIDTH + 1` = 801 steps (its pixels and the line break); the proofs
      below write that number out. */
  const Width: int := 800
  const Height: int := 600

  /** Horizontal view offset of column `x`: `x / WIDTH − 0.5`. */
  function XOffset(x: int): (r: real)
    ensures 0 <= x < Width ==> -0.5 <= r < 0.5
  {
    x as real / Width as real - 0.5
  }

  /** Vertical view offset of row `y`: rows are flipped, so row 0 is the
      top of the image, `(HEIGHT − y − 1) / HEIGHT − 0.5`. */
  function YOffset(y: int): (r: real)
    ensures 0 <= y < Height ==> -0.5 <= r < 0.5
  {
    (Height - y - 1) as real / Height as real - 0.5
  }

  /** Columns further right get strictly larger horizontal offsets. */
  lemma XOffsetIncreasing(x1: int, x2: int)
    ensures x1 < x2 <==> XOffset(x1) < XOffset(x2)
  {
  }

  /** Rows further down get strictly smaller vertical offsets, so the top
      row has the largest one. */
  lemma YOffsetDecreasing(y1: int, y2: int)
    ensures y1 < y2 <==> YOffset(y1) > YOffset(y2)
  {
  }

  lemma TopRowHighest(y: int)
    requires 0 <= y < Height
    ensures YOffset(y) <= YOffset(0)
    ensures YOffset(0) == 0.5 - 1.0 / Height as real
  {
    YOffsetDecreasing(0, y);
  }

  /** The offsets determine the pixel: each can be mapped back to its
      column or row. */
  lemma OffsetsInvert(x: int, y: int)
    ensures (XOffset(x) + 0.5) * Width as real == x as real
    ensures Height as real - 1.0 - (YOffset(y) + 0.5) * Height as real == y as real
  {
  }

  /** Column 400 and row 299 have zero offsets: the ray of that pixel is
      the camera's own direction. */
  lemma CentrePixelOffsets()
    ensures XOffset(Width / 2) == 0.0 && YOffset(Height / 2 - 1) == 0.0
  {
  }

  /** One step of the pixel loop: visit pixel `(x, y)`, or end the row. */
  datatype Step = Visit(x: int, y: int) | NewLine

  /** What column `x` of row `y` holds: a pixel for the first `WIDTH`
      columns, then the end of the row. */
  function Cell(x: int, y: int): Step {
    if x < Width then Visit(x, y) else NewLine
  }

  /** Row `y` of the pixel loop: its `WIDTH` pixels left to right, then the
      end of the row. */
  function Row(y: int): (r: seq<Step>)
    ensures |r| == 801
  {
    seq(801, x => Cell(x, y))
  }

  /** Rows `y` to the last, top to bottom. */
  function FrameFrom(y: int): (r: seq<Step>)
    requires 0 <= y <= Height
    ensures |r| == (600 - y) * 801
    decreases Height - y
  {
    if y == Height then []
    else Row(y) + FrameFrom(y + 1)
  }

  /** The order in which the pixel loop visits the whole viewport. */
  function Order(): seq<Step> {
    FrameFrom(0)
  }

  /** The rows from `y0` on start with row `y0`. */
  lemma FirstRow(y0: int, x: int)
    requires 0 <= y0 < Height && 0 <= x <= Width
    ensures FrameFrom(y0)[x] == Cell(x, y0)
  {
    assert FrameFrom(y0) == Row(y0) + FrameFrom(y0 + 1);
  }

  /** Past the first row, the rows from `y0` on are the rows from `y0 + 1`. */
  lemma LaterRows(y0: int, m: int, n: int)
    requires 0 <= y0 < 599 && 0 <= m < |FrameFrom(y0 + 1)| && n == m + 801
    ensures FrameFrom(y0)[n] == FrameFrom(y0 + 1)[m]
  {
    assert FrameFrom(y0) == Row(y0) + FrameFrom(y0 + 1);
  }

  /** Row-major layout of the rows from `y0` on: column `x` of row `y` sits
      at `(y − y0) · (WIDTH + 1) + x`. */
  lemma {:induction false} FrameFromLayout(y0: int, x: int, y: int, n: int)
    requires 0 <= y0 <= y < Height && 0 <= x <= Width
    requires n == (y - y0) * 801 + x
    ensures FrameFrom(y0)[n] == Cell(x, y)
    decreases y - y0
  {
    if y0 < y {
      var m := n - 801;
      FrameFromLayout(y0 + 1, x, y, m);
      LaterRows(y0, m, n);
    } else {
      FirstRow(y0, x);
    }
  }

  /** Step `i` of a row-major walk that ends every row: column `i mod 801`
      of row `i div 801`. */
  function StepAt(i: int): Step
    requires 0 <= i
  {
    Cell(i % 801, i / 801)
  }

  /** Step `y · 801 + x` of the closed form is column `x` of row `y`. */
  lemma StepAtCell(x: int, y: int)
    requires 0 <= y && 0 <= x <= Width
    ensures StepAt(y * 801 + x) == Cell(x, y)
  {
    var n := y * 801 + x;
    assert n % 801 == x && n / 801 == y;
  }

  /** The pixel loop visits `HEIGHT` rows of `WIDTH` pixels each, row by
      row from the top and left to right, and ends every row: column `x` of
      row `y` is step `n = y · (WIDTH + 1) + x`. */
  lemma OrderLayout(x: int, y: int, n: int)
    requires 0 <= y < Height && 0 <= x <= Width
    requires n == y * 801 + x
    ensures |Order()| == 600 * 801
    ensures Order()[n] == Cell(x, y)
  {
    FrameFromLayout(0, x, y, n);
  }

  /** The recursive order and the closed form agree at every step. */
  lemma OrderIsRowMajor(i: int)
    requires 0 <= i < 600 * 801
    ensures |Order()| == 600 * 801
    ensures Order()[i] == StepAt(i)
  {
    OrderLayout(i % 801, i / 801, i);
  }
}
